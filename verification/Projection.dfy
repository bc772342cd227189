/** The durable tables of one market and the transaction that persists a match result
    (`PersistBookMatchResult`, internal/app/orders/service.go). */
module Projection {
  import opened Orders
  import opened Engine
  import opened BookSpec
  import opened Sweeping
  import opened MatchingLaws
  import opened BookRuns
  import opened Snapshots
  import opened Recovery

  /** The tables behind the resident runtime of one market. */
  datatype Db = Db(
    orders: map<string, Order>,
    active: set<Order>,
    events: seq<MatchEvent>,
    snapshot: Option<Snapshot>,
    latestApplied: nat)

  /** `isBookableOrder`: the projection keeps no order below the minimum active quantity. */
  predicate IsActiveRow(o: Order) {
    !o.kind.Market? && IsOpenStatus(o.status) && o.remaining >= MIN_ACTIVE_QUANTITY
  }

  function SyncRow(active: set<Order>, o: Order): set<Order> {
    (set x | x in active && x.id != o.id) + if IsActiveRow(o) then {o} else {}
  }

  function SyncRows(active: set<Order>, items: seq<Order>): set<Order>
    decreases |items|
  {
    if items == [] then active else SyncRows(SyncRow(active, items[0]), items[1..])
  }

  function SaveAll(orders: map<string, Order>, items: seq<Order>): map<string, Order>
    decreases |items|
  {
    if items == [] then orders else SaveAll(orders[items[0].id := items[0]], items[1..])
  }

  function RuntimeMatchable(s: Status): bool {
    s.PendingMatch? || s.Open? || s.PartiallyFilled?
  }

  /** A command's order as the runtime starts to match it. */
  function TakerOf(o: Order, now: int): Order {
    if o.status.PendingMatch? then o.(status := Open, updatedAt := now) else o
  }

  /** One event per sequence id: the same payload is accepted again, a different one is a conflict. */
  function AppendEvent(events: seq<MatchEvent>, e: MatchEvent): Option<seq<MatchEvent>> {
    if events == [] || e.sequence < events[0].sequence then Some([e] + events)
    else if e.sequence == events[0].sequence then (if e == events[0] then Some(events) else None)
    else
      match AppendEvent(events[1..], e)
      case Some(rest) => Some([events[0]] + rest)
      case None => None
  }

  /** The part of the set of active orders the projection shows. */
  ghost function Rows(s: set<Order>): set<Order> {
    set o | o in s && o.remaining >= MIN_ACTIVE_QUANTITY
  }

  ghost predicate NoDust(v: View) {
    forall o :: Has(v, o) ==> o.remaining >= MIN_ACTIVE_QUANTITY
  }

  /** How the transaction ends: an order already decided elsewhere skips it without error. */
  datatype Persisted = Skipped | RolledBack | Committed(db: Db)

  function WithEvent(events: seq<MatchEvent>, sequence: nat, r: MatchResult): Option<seq<MatchEvent>> {
    if sequence == 0 then Some(events) else AppendEvent(events, MatchEvent(sequence, r))
  }

  /** `settles` is the verdict of the ledger part of the transaction. */
  ghost function PersistSpec(c: Config, db: Db, r: MatchResult, sequence: nat, save: bool, settles: bool,
                             now: int): Persisted {
    if r.taker.id !in db.orders then RolledBack
    else if !RuntimeMatchable(db.orders[r.taker.id].status) then Skipped
    else if exists m :: m in r.makers && m.id !in db.orders then RolledBack
    else if !settles then RolledBack
    else
      var items := r.makers + [r.taker];
      var next := db.(orders := SaveAll(db.orders, items), active := SyncRows(db.active, items));
      match WithEvent(db.events, sequence, r)
      case None => RolledBack
      case Some(events) =>
        var logged := next.(events := events);
        if !save then Committed(logged)
        else
          match ProjectionSnapshot(c, next.active, sequence, now)
          case None => RolledBack
          case Some(s) => Committed(logged.(snapshot := Some(s)))
  }

  /** Saving an order replaces its row, and keeps it as a row exactly if it is a limit order, open or partially
      filled, with at least 0.000000005 left. */
  lemma SavedRowIff(active: set<Order>, o: Order, x: Order)
    ensures x in SyncRow(active, o) <==>
              || (x in active && x.id != o.id)
              || (x == o && !o.kind.Market? && (o.status.Open? || o.status.PartiallyFilled?) &&
                  o.remaining >= 5_000_000_000)
  {
  }

  /** A persist is skipped exactly for a stored order that is neither waiting nor open nor partially filled. */
  lemma SkippedIff(c: Config, db: Db, r: MatchResult, sequence: nat, save: bool, settles: bool, now: int)
    ensures PersistSpec(c, db, r, sequence, save, settles, now).Skipped? <==>
              && r.taker.id in db.orders
              && var s := db.orders[r.taker.id].status; !s.PendingMatch? && !s.Open? && !s.PartiallyFilled?
  {
  }

  /** The book loaded from the active-order projection, in whatever order its rows are listed. */
  ghost function ProjectedBook(c: Config, active: set<Order>): Option<View> {
    var l := LoadSpec(c, EMPTY_VIEW, Listing(active));
    if l.error.Some? then None else Some(l.view)
  }

  ghost function ProjectionSnapshot(c: Config, active: set<Order>, sequence: nat, now: int): Option<Snapshot> {
    match ProjectedBook(c, active)
    case None => None
    case Some(v) => Some(CaptureSpec(c, v, sequence, now))
  }

  ghost function Listing(s: set<Order>): (q: seq<Order>)
    ensures forall o :: o in q <==> o in s
    ensures forall i, j :: 0 <= i < j < |q| ==> q[i] != q[j]
  {
    if s == {} then [] else
      var o :| o in s;
      [o] + Listing(s - {o})
  }

  // ---- The projection follows the live book ----

  lemma RowsOfSync(s: set<Order>, o: Order)
    ensures Rows(Sync(s, o)) == SyncRow(Rows(s), o)
  {
  }

  lemma {:induction false} RowsOfSyncAll(s: set<Order>, items: seq<Order>)
    ensures Rows(SyncAll(s, items)) == SyncRows(Rows(s), items)
    decreases |items|
  {
    if items != [] {
      RowsOfSync(s, items[0]);
      RowsOfSyncAll(Sync(s, items[0]), items[1..]);
    }
  }

  /** Rows that may rest, no two of them with one id. */
  ghost predicate ActiveOk(c: Config, issued: map<string, nat>, active: set<Order>) {
    && (forall o :: o in active ==> Resting(c, issued, o))
    && forall a, b :: a in active && b in active && a.id == b.id ==> a == b
  }

  ghost predicate Lists(items: seq<Order>, active: set<Order>) {
    && (forall o :: o in items <==> o in active)
    && forall i, j :: 0 <= i < j < |items| ==> items[i] != items[j]
  }

  /** The projection loads into one book, in whatever order its rows are listed. */
  lemma ProjectionLoads(c: Config, issued: map<string, nat>, active: set<Order>, items: seq<Order>)
    requires c.market != "" && Issue(issued) && ActiveOk(c, issued, active) && Lists(items, active)
    ensures var l := LoadSpec(c, EMPTY_VIEW, items);
            && l.error.None? && WF(c, issued, l.view) && Members(l.view) == active
            && ProjectedBook(c, active) == Some(l.view)
  {
    RowsLoadable(c, issued, active, items);
    RowsLoadable(c, issued, active, Listing(active));
    LoadIsCanonical(c, issued, items, Listing(active));
    EmptyIsWF(c, issued);
    LoadEffect(c, issued, EMPTY_VIEW, items);
  }

  lemma RowsLoadable(c: Config, issued: map<string, nat>, active: set<Order>, items: seq<Order>)
    requires ActiveOk(c, issued, active) && Lists(items, active)
    ensures Loadable(c, issued, items) && Bookable(c, items) == active
  {
    assert forall o :: o in active ==> Normalize(c, o) == o && IsBookable(o);
    assert forall i :: 0 <= i < |items| ==> items[i] in items;
  }

  lemma RowsAreOk(c: Config, issued: map<string, nat>, v: View)
    requires WF(c, issued, v)
    ensures ActiveOk(c, issued, Rows(Members(v)))
  {
    assert forall o :: o in Members(v) ==> Has(v, o);
  }

  lemma {:induction false} SyncKeepsRowsOk(c: Config, issued: map<string, nat>, active: set<Order>, items: seq<Order>)
    requires ActiveOk(c, issued, active) && WritesBack(c, issued, items)
    ensures ActiveOk(c, issued, SyncRows(active, items))
    decreases |items|
  {
    if items != [] {
      assert items[0] in items && forall o :: o in items[1..] ==> o in items;
      SyncKeepsRowsOk(c, issued, SyncRow(active, items[0]), items[1..]);
    }
  }

  /** The exact dust condition: the projection loads into the live book if and only if no dust rests in it. */
  lemma ProjectionIsLiveIffNoDust(c: Config, issued: map<string, nat>, v: View)
    requires WF(c, issued, v)
    ensures ProjectedBook(c, Rows(Members(v))) == Some(v) <==> NoDust(v)
  {
    var items := Listing(Rows(Members(v)));
    RowsAreOk(c, issued, v);
    ProjectionLoads(c, issued, Rows(Members(v)), items);
    var w := LoadSpec(c, EMPTY_VIEW, items).view;
    assert forall o :: Has(v, o) <==> o in Members(v);
    if NoDust(v) {
      assert Rows(Members(v)) == Members(v);
      CanonicalView(c, issued, v, w);
    }
    if w == v {
      assert forall o :: o in Members(v) ==> o in Rows(Members(v));
    }
  }
}
