/** The resident runtime of one market and the tables it persists into, changed in place. */
module Runtime {
  import opened Orders
  import opened Engine
  import opened BookSpec
  import opened Sweeping
  import opened BookRuns
  import opened MarketBooks
  import opened Snapshots
  import opened Recovery
  import opened Projection
  import opened Reload

  const PAGE: nat := 1000

  /** The tables of one market. A transaction that fails leaves them as they were. */
  class Store {
    const config: Config
    var orders: map<string, Order>
    var active: set<Order>
    var events: seq<MatchEvent>
    var snapshot: Option<Snapshot>
    var latestApplied: nat
    ghost const issued: map<string, nat>

    ghost function Tables(): Db
      reads this
    {
      Db(orders, active, events, snapshot, latestApplied)
    }

    ghost predicate Valid()
      reads this
    {
      config.market != "" && Issue(issued) && ActiveOk(config, issued, active) && LogOk(events)
    }

    constructor (config: Config, ghost issued: map<string, nat>)
      requires config.market != "" && Issue(issued)
      ensures Valid() && Tables() == Db(map[], {}, [], None, 0)
    {
      this.config, this.issued := config, issued;
      orders, active, events, snapshot, latestApplied := map[], {}, [], None, 0;
    }

    /** `SaveOrder`: stores the order and keeps the active projection in step. */
    method SaveOrder(o: Order)
      modifies this`orders, this`active
      ensures orders == old(orders)[o.id := o] && active == SyncRow(old(active), o)
    {
      orders := orders[o.id := o];
      active := (set x | x in active && x.id != o.id) + if IsActiveRow(o) then {o} else {};
    }

    /** Other transactions save orders. */
    method SaveOthers(items: seq<Order>)
      requires Valid() && WritesBack(config, issued, items)
      modifies this`orders, this`active
      ensures Valid() && Tables() == WithOthers(old(Tables()), items)
    {
      var i := 0;
      assert items[0..] == items;
      while i < |items|
        invariant 0 <= i <= |items|
        invariant SaveAll(orders, items[i..]) == SaveAll(old(orders), items)
        invariant SyncRows(active, items[i..]) == SyncRows(old(active), items)
      {
        assert items[i..][1..] == items[i + 1..];
        SaveOrder(items[i]);
        i := i + 1;
      }
      SyncKeepsRowsOk(config, issued, old(active), items);
    }

    /** `ListActiveOrdersForUpdate`: every row once. */
    method ListActiveOrders() returns (items: seq<Order>)
      ensures Lists(items, active)
    {
      items := [];
      var rest := active;
      while rest != {}
        invariant rest <= active
        invariant forall o :: o in items <==> o in active - rest
        invariant forall i, j :: 0 <= i < j < |items| ==> items[i] != items[j]
        decreases rest
      {
        var o :| o in rest;
        assert forall i :: 0 <= i < |items| ==> items[i] in items;
        items := items + [o];
        rest := rest - {o};
      }
    }

    /** `ListMatchEventLogsAfter`: one page of events beyond a sequence. */
    method ListEventsAfter(after: nat, limit: nat) returns (page: seq<MatchEvent>)
      requires limit > 0
      ensures page == Page(EventsAfter(events, after), limit)
    {
      page := [];
      var i := 0;
      assert events[0..] == events;
      while i < |events| && |page| < limit
        invariant 0 <= i <= |events| && |page| <= limit
        invariant page + EventsAfter(events[i..], after) == EventsAfter(events, after)
      {
        assert events[i..][1..] == events[i + 1..];
        if events[i].sequence > after {
          assert (page + [events[i]]) + EventsAfter(events[i + 1..], after) == page + EventsAfter(events[i..], after);
          page := page + [events[i]];
        }
        i := i + 1;
      }
    }

    /** A book loaded from the active-order projection. */
    method LoadProjection() returns (book: MarketBook)
      requires Valid()
      ensures fresh(book) && fresh(book.bids) && fresh(book.asks)
      ensures book.Valid() && book.config == config && book.issued == issued
      ensures ProjectedBook(config, active) == Some(book.Contents())
    {
      var rows := ListActiveOrders();
      ProjectionLoads(config, issued, active, rows);
      assert forall o :: o in rows ==> Resting(config, issued, o);
      book := new MarketBook(config, issued);
      var err := book.Load(rows);
      assert err.None?;
    }

    /** `captureMatcherSnapshot`: the book of the active projection, captured. */
    method CaptureProjection(sequence: nat, now: int) returns (s: Snapshot)
      requires Valid()
      ensures ProjectionSnapshot(config, active, sequence, now) == Some(s)
    {
      var book := LoadProjection();
      s := CaptureState(book, sequence, now);
    }

    /** `AppendMatchEventLog`: one event per positive sequence; false if another payload holds it already. */
    method AppendMatchEvent(sequence: nat, r: MatchResult) returns (ok: bool)
      requires LogOk(events)
      modifies this`events
      ensures LogOk(events)
      ensures ok <==> sequence == 0 || forall x :: x in old(events) && x.sequence == sequence ==> x.result == r
      ensures forall x :: x in events <==> x in old(events) || (ok && sequence > 0 && x == MatchEvent(sequence, r))
      ensures WithEvent(old(events), sequence, r) == if ok then Some(events) else None
    {
      if sequence == 0 {
        return true;
      }
      ghost var e := MatchEvent(sequence, r);
      AppendEffect(events, e);
      var i := 0;
      while i < |events| && events[i].sequence < sequence
        invariant 0 <= i <= |events| && forall k :: 0 <= k < i ==> events[k].sequence < sequence
      {
        i := i + 1;
      }
      AppendAt(events, e, i);
      if i < |events| && events[i].sequence == sequence {
        assert events[i] in events;
        return events[i].result == r;
      }
      events := events[..i] + [MatchEvent(sequence, r)] + events[i..];
      ok := true;
    }

    /** The writes of `PersistBookMatchResult` in their order; false asks the transaction to roll back. */
    method WriteResult(r: MatchResult, sequence: nat, save: bool, settles: bool, now: int) returns (ok: bool)
      requires Valid() && WritesBack(config, issued, r.makers + [r.taker])
      requires r.taker.id in orders && RuntimeMatchable(orders[r.taker.id].status)
      modifies this
      ensures PersistSpec(config, old(Tables()), r, sequence, save, settles, now) ==
              if ok then Committed(Tables()) else RolledBack
      ensures ok ==> Valid()
    {
      ghost var db := Tables();
      ghost var items := r.makers + [r.taker];
      var i := 0;
      assert items[0..] == items;
      while i < |r.makers|
        invariant 0 <= i <= |r.makers|
        invariant forall k :: 0 <= k < i ==> r.makers[k].id in db.orders
        invariant forall id :: id in db.orders ==> id in orders
        invariant forall id :: id in orders ==> id in db.orders
        invariant SaveAll(orders, items[i..]) == SaveAll(db.orders, items)
        invariant SyncRows(active, items[i..]) == SyncRows(db.active, items)
        invariant events == db.events && snapshot == db.snapshot && latestApplied == db.latestApplied
      {
        if r.makers[i].id !in orders {
          assert r.makers[i] in r.makers;
          return false;
        }
        assert items[i..][0] == r.makers[i] && items[i..][1..] == items[i + 1..];
        SaveOrder(r.makers[i]);
        i := i + 1;
      }
      assert items[|r.makers|..] == [r.taker];
      SaveOrder(r.taker);
      assert SaveAll(orders, []) == SaveAll(db.orders, items);
      assert SyncRows(active, []) == SyncRows(db.active, items);
      assert !(exists m :: m in r.makers && m.id !in db.orders);
      if !settles {
        return false;
      }
      SyncKeepsRowsOk(config, issued, db.active, items);
      ok := AppendMatchEvent(sequence, r);
      if !ok || !save {
        return;
      }
      var captured := CaptureProjection(sequence, now);
      snapshot := Some(captured);
    }

    /** `PersistBookMatchResult` as one transaction. */
    method PersistBookMatchResult(r: MatchResult, sequence: nat, save: bool, settles: bool, now: int)
      returns (ok: bool, ghost how: Persisted)
      requires Valid() && WritesBack(config, issued, r.makers + [r.taker])
      modifies this
      ensures Valid() && how == PersistSpec(config, old(Tables()), r, sequence, save, settles, now)
      ensures ok <==> !how.RolledBack?
      ensures Tables() == if how.Committed? then how.db else old(Tables())
    {
      if r.taker.id !in orders {
        return false, RolledBack;
      }
      if !RuntimeMatchable(orders[r.taker.id].status) {
        return true, Skipped;
      }
      var orders0, active0, events0, snapshot0, applied0 := orders, active, events, snapshot, latestApplied;
      ok := WriteResult(r, sequence, save, settles, now);
      if !ok {
        orders, active, events, snapshot, latestApplied := orders0, active0, events0, snapshot0, applied0;
        return false, RolledBack;
      }
      how := Committed(Tables());
    }
  }

  function Page(events: seq<MatchEvent>, limit: nat): seq<MatchEvent> {
    if limit <= |events| then events[..limit] else events
  }

  /** What is left after a page. */
  lemma PageLeft(events: seq<MatchEvent>, after: nat, page: seq<MatchEvent>)
    requires LogOk(events) && page == Page(EventsAfter(events, after), PAGE) && page != []
    ensures var next := page[|page| - 1].sequence; var rest := EventsAfter(events, next);
            && EventsAfter(events, after) == page + rest
            && (|page| < PAGE ==> rest == [])
            && ReplayedTo(events, next) == ReplayedTo(events, after)
  {
    var tail := EventsAfter(events, after);
    assert tail == page + tail[|page|..];
    PageAdvances(events, after, page, tail[|page|..]);
  }

  lemma PageTicketed(c: Config, issued: map<string, nat>, events: seq<MatchEvent>, after: nat, page: seq<MatchEvent>,
                     rest: seq<MatchEvent>)
    requires EventsTicketed(c, issued, events) && EventsAfter(events, after) == page + rest
    ensures EventsTicketed(c, issued, page)
  {
    EventsAfterMembers(events, after);
    forall e | e in page ensures e in events {
      assert e in page + rest;
    }
  }

  class MarketRuntime {
    const config: Config
    const store: Store
    var book: MarketBook?
    var lastSequence: nat
    ghost const issued: map<string, nat>

    ghost predicate Valid()
      reads this, store, book, if book == null then {} else {book.bids, book.asks}
    {
      && store.Valid() && store.config == config && store.issued == issued
      && (book != null ==> book.Valid() && book.config == config && book.issued == issued)
    }

    ghost function State(): Memory
      reads this, book, if book == null then {} else {book.bids, book.asks}
      requires book != null
    {
      Memory(book.Contents(), lastSequence)
    }

    constructor (store: Store)
      requires store.Valid()
      ensures Valid() && this.store == store && book == null && lastSequence == 0
    {
      this.store := store;
      config, issued := store.config, store.issued;
      book, lastSequence := null, 0;
    }

    /** `restore`: a new book from a snapshot; a refused snapshot changes nothing. */
    method Restore(s: Snapshot) returns (ok: bool)
      requires Valid() && s.body.config == config
      requires forall o :: o in s.body.activeOrders && IsBookable(Normalize(config, o)) ==> Ticketed(issued, o)
      modifies this
      ensures Valid() && (ok <==> RestoreSpec(s).Done?)
      ensures ok ==> book != null && fresh(book) && fresh(book.bids) && fresh(book.asks)
      ensures ok ==> Some(State()) == FromSnapshot(s)
      ensures !ok ==> book == old(book) && lastSequence == old(lastSequence)
    {
      var restored, err := RestoreMarketBook(s, issued);
      if err.Some? {
        return false;
      }
      book, lastSequence := restored, s.body.lastApplied;
      ok := true;
    }

    /** `loadActiveProjection`: a new book from the active-order projection. */
    method LoadActiveProjection(last: nat) returns (ok: bool)
      requires Valid()
      modifies this
      ensures Valid() && ok && book != null && fresh(book) && fresh(book.bids) && fresh(book.asks)
      ensures Some(State()) == FromProjection(config, store.Tables(), last)
    {
      var loaded := store.LoadProjection();
      book := loaded;
      lastSequence := if last == 0 then store.latestApplied else last;
      ok := true;
    }

    /** Applies one page of events, keeping count of the sequence reached. */
    method ApplyPage(page: seq<MatchEvent>) returns (ok: bool)
      requires Valid() && book != null && page != [] && EventsTicketed(config, issued, page)
      modifies this`lastSequence, book, book.bids, book.asks
      ensures Valid() && book == old(book)
      ensures ok <==> ReplayEvents(config, old(book.Contents()), page).error.None?
      ensures ok ==> ReplayEvents(config, old(book.Contents()), page) == Inserted(book.Contents(), None)
      ensures ok ==> lastSequence == page[|page| - 1].sequence
    {
      ghost var whole := ReplayEvents(config, book.Contents(), page);
      var i := 0;
      assert page[0..] == page;
      while i < |page|
        invariant 0 <= i <= |page| && Valid()
        invariant ReplayEvents(config, book.Contents(), page[i..]) == whole
        invariant i > 0 ==> lastSequence == page[i - 1].sequence
      {
        assert page[i..][1..] == page[i + 1..];
        assert page[i] in page;
        var err := book.ApplyResult(page[i].result);
        if err.Some? {
          return false;
        }
        lastSequence := page[i].sequence;
        i := i + 1;
      }
      ok := true;
    }

    /** The events still to be replayed. */
    ghost function Pending(): seq<MatchEvent>
      reads this, store
    {
      EventsAfter(store.events, lastSequence)
    }

    /** The outcome of replaying what is pending. */
    ghost function Replayed(): Inserted
      reads this, store, book, if book == null then {} else {book.bids, book.asks}
      requires book != null
    {
      ReplayEvents(config, book.Contents(), Pending())
    }

    /** Replays one page; `more` when a full page leaves events behind it to be asked for. */
    method ReplayPage() returns (ok: bool, more: bool)
      requires Valid() && book != null && EventsTicketed(config, issued, store.events)
      modifies this`lastSequence, book, book.bids, book.asks
      ensures Valid() && book == old(book)
      ensures !ok ==> old(Replayed()).error.Some?
      ensures ok ==> Replayed() == old(Replayed())
      ensures ok ==> ReplayedTo(store.events, lastSequence) == old(ReplayedTo(store.events, lastSequence))
      ensures ok && !more ==> Pending() == []
      ensures ok && more ==> |Pending()| < |old(Pending())|
    {
      var page := store.ListEventsAfter(lastSequence, PAGE);
      if page == [] {
        return true, false;
      }
      ghost var rest := EventsAfter(store.events, page[|page| - 1].sequence);
      PageLeft(store.events, lastSequence, page);
      PageTicketed(config, issued, store.events, lastSequence, page, rest);
      ReplayPrefix(config, book.Contents(), page, rest);
      ok := ApplyPage(page);
      more := |page| >= PAGE;
    }

    /** `replayMatchEventsFromSnapshot`: restores, then applies the later events page by page. */
    method ReplayMatchEvents(s: Snapshot) returns (ok: bool)
      requires Valid() && s.body.config == config && EventsTicketed(config, issued, store.events)
      requires forall o :: o in s.body.activeOrders && IsBookable(Normalize(config, o)) ==> Ticketed(issued, o)
      modifies this
      ensures Valid() && (ok <==> FromLog(config, s, store.events).Some?)
      ensures ok ==> book != null && fresh(book) && fresh(book.bids) && fresh(book.asks)
      ensures ok ==> Some(State()) == FromLog(config, s, store.events)
    {
      ok := Restore(s);
      if !ok {
        return;
      }
      ghost var whole := Replayed();
      var more := true;
      while more
        invariant Valid() && book != null && fresh(book) && fresh(book.bids) && fresh(book.asks)
        invariant Replayed() == whole
        invariant ReplayedTo(store.events, lastSequence) == ReplayedTo(store.events, s.body.lastApplied)
        invariant !more ==> Pending() == []
        decreases more, |Pending()|
      {
        ok, more := ReplayPage();
        if !ok {
          return;
        }
      }
      ok := true;
    }
  
    /** `reload`: from the log, the projection or the snapshot, as the applied commands and logged events demand. */
    method Reload(g: RetentionGuard) returns (ok: bool)
      requires Valid() && EventsTicketed(config, issued, store.events)
      requires store.snapshot.Some? ==> SnapshotUsable(store.snapshot.value)
      modifies this
      ensures Valid() && (ok <==> ReloadSpec(config, store.Tables(), g).Some?)
      ensures ok ==> book != null && fresh(book) && fresh(book.bids) && fresh(book.asks)
      ensures ok ==> Some(State()) == ReloadSpec(config, store.Tables(), g)
    {
      if store.snapshot.None? {
        ok := LoadActiveProjection(0);
        return;
      }
      var s := store.snapshot.value;
      if !Retained(s, g) {
        return false;
      }
      var latestEvent := LatestSequence(store.events);
      if store.latestApplied > s.body.lastApplied && latestEvent >= store.latestApplied {
        ok := ReplayMatchEvents(s);
      } else if store.latestApplied > s.body.lastApplied {
        ok := LoadActiveProjection(store.latestApplied);
      } else if latestEvent > s.body.lastApplied {
        ok := ReplayMatchEvents(s);
      } else {
        ok := Restore(s);
      }
    }

    /** A stored snapshot of this market, of ticketed orders. */
    ghost predicate SnapshotUsable(s: Snapshot) {
      s.body.config == config && forall o :: o in s.body.activeOrders ==> Ticketed(issued, o)
    }

    /** `ProcessCommand` on a loaded runtime: read the order, match it in memory, persist in a transaction of its own,
        and on any error put the book back. `others` are the orders that other transactions save between the read and
        the persist; `settles` is the verdict of the ledger part of the transaction. */
    method ProcessCommand(orderId: string, others: seq<Order>, sequence: nat, save: bool, settles: bool, ids: TradeIds,
                          now: int)
      returns (ok: bool)
      requires Valid() && book != null && WritesBack(config, issued, others)
      requires orderId in store.orders ==>
                 store.orders[orderId].id == orderId && Ticketed(issued, store.orders[orderId])
      modifies this, store, book, book.bids, book.asks
      ensures Valid() && book != null && lastSequence == old(lastSequence)
      ensures Processed(old(store.Tables()), old(book.Contents()), store.Tables(), book.Contents(),
                        ok, orderId, others, sequence, save, settles, ids, now)
    {
      if orderId == "" || orderId !in store.orders {
        return false;
      }
      var current := store.orders[orderId];
      if !RuntimeMatchable(current.status) {
        return true;
      }
      var active := book.ActiveOrder(current.id);
      if active.Some? {
        return true;
      }
      store.SaveOthers(others);
      ok := MatchAndPersist(TakerOf(current, now), sequence, save, settles, ids, now);
    }

    /** Captures the book, matches, persists, and restores the captured book on any error. The source then puts the
        taker's price back, which `Apply` never changed. A persist skipped for an order decided meanwhile is no error,
        and leaves the matched book in memory. */
    method MatchAndPersist(taker: Order, sequence: nat, save: bool, settles: bool, ids: TradeIds, now: int)
      returns (ok: bool)
      requires Valid() && book != null && Ticketed(issued, taker)
      modifies this, store, book, book.bids, book.asks
      ensures Valid() && book != null && lastSequence == old(lastSequence)
      ensures Persists(old(store.Tables()), old(book.Contents()), store.Tables(), book.Contents(),
                       ok, taker, sequence, save, settles, ids, now)
    {
      ghost var v := book.Contents();
      var before := CaptureState(book, lastSequence, now);
      CapturedRestores(config, issued, v, lastSequence, now);
      WritesOf(config, issued, v, taker, ids, now);
      var out := book.Apply(taker, ids, now);
      if out.Failed? {
        ok := Restore(before);
        return false;
      }
      ghost var how;
      ok, how := store.PersistBookMatchResult(out.value, sequence, save, settles, now);
      if !ok {
        ok := Restore(before);
        return false;
      }
    }

    /** What matching and persisting leave behind: after an error book and tables are as before, after a commit they are
        the matched book and the committed tables, and after a skipped persist only the book has changed. */
    ghost predicate Persists(db: Db, v: View, db': Db, v': View, ok: bool, taker: Order, sequence: nat, save: bool,
                             settles: bool,
                             ids: TradeIds, now: int) {
      var a := ApplySpec(config, v, taker, ids, now);
      if !ok then
        && db' == db && v' == v
        && (a.outcome.Done? ==> PersistSpec(config, db, a.outcome.value, sequence, save, settles, now).RolledBack?)
      else
        && a.outcome.Done? && v' == a.view
        && var p := PersistSpec(config, db, a.outcome.value, sequence, save, settles, now);
           !p.RolledBack? && db' == if p.Committed? then p.db else db
    }

    /** ... and the whole command: nothing new when its order was decided or active already. */
    ghost predicate Processed(db: Db, v: View, db': Db, v': View, ok: bool, orderId: string, others: seq<Order>,
                              sequence: nat,
                              save: bool, settles: bool, ids: TradeIds, now: int) {
      if orderId == "" || orderId !in db.orders then !ok && db' == db && v' == v
      else
        var current := db.orders[orderId];
        var waiting := current.status.PendingMatch?;
        var taker := if waiting then current.(status := Open, updatedAt := now) else current;
        if !(waiting || current.status.Open? || current.status.PartiallyFilled?) || HasId(v, orderId)
        then ok && db' == db && v' == v
        else Persists(WithOthers(db, others), v, db', v', ok, taker, sequence, save, settles, ids, now)
    }
  }

  /** The tables after other transactions saved these orders. */
  function WithOthers(db: Db, others: seq<Order>): Db {
    db.(orders := SaveAll(db.orders, others), active := SyncRows(db.active, others))
  }

  /** Where an event goes in the log: behind the earlier ones, and nowhere if its sequence is taken. */
  lemma {:induction false} AppendAt(events: seq<MatchEvent>, e: MatchEvent, i: nat)
    requires i <= |events| && forall k :: 0 <= k < i ==> events[k].sequence < e.sequence
    requires i < |events| ==> e.sequence <= events[i].sequence
    ensures AppendEvent(events, e) ==
            if i < |events| && events[i].sequence == e.sequence then (if events[i] == e then Some(events) else None)
            else Some(events[..i] + [e] + events[i..])
  {
    if i == 0 {
      assert events[..0] + [e] + events[0..] == [e] + events;
    } else {
      AppendAt(events[1..], e, i - 1);
      assert events == [events[0]] + events[1..];
      assert [events[0]] + (events[1..][..i - 1] + [e] + events[1..][i - 1..]) == events[..i] + [e] + events[i..];
    }
  }

  /** One event per sequence: appending keeps the log in order, adds exactly this event, and fails exactly when another
      event holds its sequence. */
  lemma {:induction false} AppendEffect(events: seq<MatchEvent>, e: MatchEvent)
    requires LogOk(events) && e.sequence > 0
    ensures AppendEvent(events, e).Some? <==> forall x :: x in events && x.sequence == e.sequence ==> x == e
    ensures AppendEvent(events, e).Some? ==>
              && LogOk(AppendEvent(events, e).value)
              && forall x :: x in AppendEvent(events, e).value <==> x in events || x == e
  {
    if events != [] {
      LogTail(events);
      assert events == [events[0]] + events[1..];
      if e.sequence < events[0].sequence {
        LogGrowsFront(e, events);
      } else if e.sequence > events[0].sequence {
        AppendEffect(events[1..], e);
        if AppendEvent(events[1..], e).Some? {
          LogGrowsFront(events[0], AppendEvent(events[1..], e).value);
        }
      }
    }
  }

  /** A result is committed if and only if its order is stored and still waits or is open, every maker is stored, the
      ledger accepts it, no other result holds its sequence, and a snapshot, if one is due, can be taken. */
  lemma CommittedIff(c: Config, db: Db, r: MatchResult, sequence: nat, save: bool, settles: bool, now: int)
    requires LogOk(db.events)
    ensures PersistSpec(c, db, r, sequence, save, settles, now).Committed? <==>
              && r.taker.id in db.orders
              && (var s := db.orders[r.taker.id].status; s.PendingMatch? || s.Open? || s.PartiallyFilled?)
              && (forall m :: m in r.makers ==> m.id in db.orders) && settles
              && (sequence > 0 ==> forall e :: e in db.events && e.sequence == sequence ==> e.result == r)
              && (save ==> ProjectedBook(c, SyncRows(db.active, r.makers + [r.taker])).Some?)
  {
    if sequence > 0 {
      AppendEffect(db.events, MatchEvent(sequence, r));
    }
  }

  lemma CapturedRestores(c: Config, issued: map<string, nat>, v: View, lastSequence: nat, now: int)
    requires WF(c, issued, v)
    ensures var s := CaptureSpec(c, v, lastSequence, now);
            && FromSnapshot(s) == Some(Memory(v, lastSequence))
            && forall o :: o in s.body.activeOrders ==> Ticketed(issued, o)
  {
    RestoreUndoesCapture(c, issued, v, lastSequence, now);
    assert forall o :: o in v.bids + v.asks ==> Has(v, o) && Resting(c, issued, o);
  }

  /** The orders a successful match writes may be stored and projected. */
  lemma WritesOf(c: Config, issued: map<string, nat>, v: View, taker: Order, ids: TradeIds, now: int)
    requires WF(c, issued, v) && Ticketed(issued, taker)
    ensures var a := ApplySpec(c, v, taker, ids, now);
            a.outcome.Done? ==>
              && a.outcome.value.taker.id == taker.id
              && WritesBack(c, issued, a.outcome.value.makers + [a.outcome.value.taker])
  {
    ApplyEffect(c, issued, v, taker, ids, now);
    if ApplySpec(c, v, taker, ids, now).outcome.Done? {
      DoneHasTaker(c, issued, v, taker, ids, now);
    }
  }
}
