/** What a restart rebuilds from the durable tables, and that it is the live book. */
module Reload {
  import opened Orders
  import opened Engine
  import opened BookSpec
  import opened Sweeping
  import opened MatchingLaws
  import opened BookRuns
  import opened Snapshots
  import opened Recovery
  import opened Projection

  /** The runtime's memory: the book and the last sequence it accounts for. */
  datatype Memory = Memory(view: View, lastSequence: nat)

  /** A stored snapshot from which the log leads to the live book. */
  ghost predicate LeadsTo(c: Config, issued: map<string, nat>, s: Snapshot, events: seq<MatchEvent>, v: View) {
    && s.body.config == c
    && (forall o :: o in s.body.activeOrders ==> Ticketed(issued, o))
    && RestoreSpec(s).Done? && WF(c, issued, RestoreSpec(s).value)
    && ReplayEvents(c, RestoreSpec(s).value, EventsAfter(events, s.body.lastApplied)) == Inserted(v, None)
  }

  ghost predicate EventsTicketed(c: Config, issued: map<string, nat>, events: seq<MatchEvent>) {
    forall e, o :: e in events && o in Touched(e.result) ==>
        Normalize(c, o) == o && (IsBookable(o) ==> Ticketed(issued, o))
  }

  /** The projection shows the book, every resting order is stored, and the log is in order. */
  ghost predicate Tabled(c: Config, issued: map<string, nat>, db: Db, v: View) {
    && WF(c, issued, v)
    && db.active == Rows(Members(v))
    && (forall o :: Has(v, o) ==> o.id in db.orders)
    && LogOk(db.events) && EventsTicketed(c, issued, db.events)
  }

  /** The tables agree with the live book, and the latest snapshot with the log behind it leads to it. */
  ghost predicate Coherent(c: Config, issued: map<string, nat>, db: Db, v: View) {
    && Tabled(c, issued, db, v)
    && (db.snapshot.Some? ==> LeadsTo(c, issued, db.snapshot.value, db.events, v))
  }

  function SnapshotSequence(db: Db): nat {
    match db.snapshot case Some(s) => s.body.lastApplied case None => 0
  }

  lemma {:induction false} AppendLater(events: seq<MatchEvent>, e: MatchEvent)
    requires forall x :: x in events ==> x.sequence < e.sequence
    ensures AppendEvent(events, e) == Some(events + [e])
  {
    if events == [] {
      assert [e] + events == events + [e];
    } else {
      assert events[0] in events;
      AppendLater(events[1..], e);
      assert [events[0]] + (events[1..] + [e]) == events + [e];
    }
  }

  /** One more event carries every snapshot one step further. */
  lemma LeadsFurther(c: Config, issued: map<string, nat>, s: Snapshot, events: seq<MatchEvent>, v: View, e: MatchEvent,
                     w: View)
    requires LeadsTo(c, issued, s, events, v) && e.sequence > s.body.lastApplied
    requires ReplaySpec(c, v, e.result) == Inserted(w, None)
    ensures LeadsTo(c, issued, s, events + [e], w)
  {
    var tail := EventsAfter(events, s.body.lastApplied);
    EventsAfterSplit(events, [e], s.body.lastApplied);
    assert EventsAfter([e], s.body.lastApplied) == [e];
    ReplaySplit(c, RestoreSpec(s).value, tail, [e]);
    assert ReplayEvents(c, v, [e]) == Inserted(w, None);
  }

  lemma {:induction false} SaveAllKeeps(orders: map<string, Order>, items: seq<Order>)
    ensures forall id :: id in SaveAll(orders, items) <==> id in orders || exists o :: o in items && o.id == id
    decreases |items|
  {
    if items != [] {
      SaveAllKeeps(orders[items[0].id := items[0]], items[1..]);
      assert items == [items[0]] + items[1..];
      assert items[0] in items;
    }
  }

  /** The rows and stored orders a transaction writes follow the book it persists. */
  lemma WritesFollowBook(c: Config, issued: map<string, nat>, db: Db, v: View, w: View, items: seq<Order>)
    requires Coherent(c, issued, db, v) && Members(w) == SyncAll(Members(v), items)
    ensures SyncRows(db.active, items) == Rows(Members(w))
    ensures forall o :: Has(w, o) ==> o.id in SaveAll(db.orders, items)
  {
    RowsOfSyncAll(Members(v), items);
    SaveAllKeeps(db.orders, items);
    SyncAllFrom(Members(v), items);
    forall o | Has(w, o) ensures o.id in SaveAll(db.orders, items) {
      assert o in Members(w);
      assert o in Members(v) ==> Has(v, o);
    }
  }

  /** The event a transaction logs goes to the end of an in-order log. */
  lemma LoggedLast(db: Db, r: MatchResult, sequence: nat)
    requires LogOk(db.events) && sequence > LatestSequence(db.events)
    ensures WithEvent(db.events, sequence, r) == Some(db.events + [MatchEvent(sequence, r)])
    ensures LogOk(db.events + [MatchEvent(sequence, r)])
    ensures forall e :: e in db.events + [MatchEvent(sequence, r)] ==> e.sequence <= sequence
  {
    LatestIsLast(db.events);
    AppendLater(db.events, MatchEvent(sequence, r));
    assert forall i :: 0 <= i < |db.events| ==> db.events[i] in db.events;
  }

  /** Persisting the result of a successful `Apply` keeps tables and live book together, whatever the verdict of the
      ledger; with a snapshot taken in the same transaction, it does so if and only if the book holds no dust. */
  lemma PersistKeepsCoherent(c: Config, issued: map<string, nat>, db: Db, v: View, taker: Order, ids: TradeIds,
                             now: int,
                             sequence: nat, save: bool, settles: bool)
    requires Coherent(c, issued, db, v) && Ticketed(issued, taker)
    requires ApplySpec(c, v, taker, ids, now).outcome.Done?
    requires sequence > LatestSequence(db.events) && sequence > SnapshotSequence(db)
    ensures var a := ApplySpec(c, v, taker, ids, now);
            var p := PersistSpec(c, db, a.outcome.value, sequence, save, settles, now);
            p.Committed? ==>
              && (Coherent(c, issued, p.db, a.view) <==> (save ==> NoDust(a.view)))
              && LatestSequence(p.db.events) == sequence && SnapshotSequence(p.db) <= sequence
  {
    var a := ApplySpec(c, v, taker, ids, now);
    var r := a.outcome.value;
    ApplyEffect(c, issued, v, taker, ids, now);
    DoneHasTaker(c, issued, v, taker, ids, now);
    ReplayIsApply(c, issued, v, taker, ids, now);
    CommitKeepsCoherent(c, issued, db, v, a.view, r, now, sequence, save, settles);
  }

  lemma CommitKeepsCoherent(c: Config, issued: map<string, nat>, db: Db, v: View, w: View, r: MatchResult, now: int,
                            sequence: nat, save: bool, settles: bool)
    requires Coherent(c, issued, db, v) && WF(c, issued, w)
    requires Touched(r) == r.makers + [r.taker] && Members(w) == SyncAll(Members(v), Touched(r))
    requires WritesBack(c, issued, Touched(r)) && ReplaySpec(c, v, r) == Inserted(w, None)
    requires sequence > LatestSequence(db.events) && sequence > SnapshotSequence(db)
    ensures var p := PersistSpec(c, db, r, sequence, save, settles, now);
            p.Committed? ==>
              && (Coherent(c, issued, p.db, w) <==> (save ==> NoDust(w)))
              && LatestSequence(p.db.events) == sequence && SnapshotSequence(p.db) <= sequence
  {
    var e := MatchEvent(sequence, r);
    EventsTicketedGrow(c, issued, db.events, e);
    WritesFollowBook(c, issued, db, v, w, r.makers + [r.taker]);
    LoggedLast(db, r, sequence);
    var p := PersistSpec(c, db, r, sequence, save, settles, now);
    CommittedTables(c, db, r, sequence, save, settles, now);
    if save {
      FreshSnapshotLeadsIff(c, issued, w, db.events + [e], sequence, now);
    } else if db.snapshot.Some? {
      LeadsFurther(c, issued, db.snapshot.value, db.events, v, e, w);
    }
    if p.Committed? {
      assert Tabled(c, issued, p.db, w);
    }
  }

  /** The tables of a committed match, column by column. */
  lemma CommittedTables(c: Config, db: Db, r: MatchResult, sequence: nat, save: bool, settles: bool, now: int)
    ensures var p, items := PersistSpec(c, db, r, sequence, save, settles, now), r.makers + [r.taker];
            p.Committed? ==>
              && p.db.orders == SaveAll(db.orders, items) && p.db.active == SyncRows(db.active, items)
              && Some(p.db.events) == WithEvent(db.events, sequence, r) && p.db.latestApplied == db.latestApplied
              && p.db.snapshot == if save then ProjectionSnapshot(c, p.db.active, sequence, now) else db.snapshot
  {
  }

  lemma EventsTicketedGrow(c: Config, issued: map<string, nat>, events: seq<MatchEvent>, e: MatchEvent)
    requires EventsTicketed(c, issued, events) && WritesBack(c, issued, Touched(e.result))
    ensures EventsTicketed(c, issued, events + [e])
  {
  }

  lemma DoneHasTaker(c: Config, issued: map<string, nat>, v: View, taker: Order, ids: TradeIds, now: int)
    requires WF(c, issued, v) && Ticketed(issued, taker) && ApplySpec(c, v, taker, ids, now).outcome.Done?
    ensures var r := ApplySpec(c, v, taker, ids, now).outcome.value;
            r.taker.id == taker.id != "" && Touched(r) == r.makers + [r.taker]
  {
    AcceptedIsReady(c, issued, v, taker);
    MatchedResult(c, issued, v, Prepared(c, taker), ids, now);
  }

  /** A fresh snapshot of one book leads to another only if they are the same. */
  lemma FreshSnapshotLeads(c: Config, issued: map<string, nat>, w: View, v: View, events: seq<MatchEvent>,
                           sequence: nat, now: int)
    requires WF(c, issued, w) && forall e :: e in events ==> e.sequence <= sequence
    ensures LeadsTo(c, issued, CaptureSpec(c, w, sequence, now), events, v) <==> w == v
  {
    RestoreUndoesCapture(c, issued, w, sequence, now);
    NoneAfter(events, sequence);
    forall o | o in w.bids + w.asks ensures Ticketed(issued, o) {
      assert Has(w, o);
    }
  }

  /** The projection of a live book is always a book. */
  lemma ProjectedIsWF(c: Config, issued: map<string, nat>, v: View)
    requires WF(c, issued, v)
    ensures var p := ProjectedBook(c, Rows(Members(v))); p.Some? && WF(c, issued, p.value)
  {
    RowsAreOk(c, issued, v);
    ProjectionLoads(c, issued, Rows(Members(v)), Listing(Rows(Members(v))));
  }

  /** A snapshot of the projection leads to the book it shows with nothing left to replay, if and only if that book
      holds no dust. */
  lemma FreshSnapshotLeadsIff(c: Config, issued: map<string, nat>, v: View, events: seq<MatchEvent>, sequence: nat,
                              now: int)
    requires WF(c, issued, v) && forall e :: e in events ==> e.sequence <= sequence
    ensures var s := ProjectionSnapshot(c, Rows(Members(v)), sequence, now);
            s.Some? && s.value.body.lastApplied == sequence && (LeadsTo(c, issued, s.value, events, v) <==> NoDust(v))
  {
    ProjectedIsWF(c, issued, v);
    ProjectionIsLiveIffNoDust(c, issued, v);
    FreshSnapshotLeads(c, issued, ProjectedBook(c, Rows(Members(v))).value, v, events, sequence, now);
  }

  // ---- Reload ----

  lemma {:induction false} EventsAfterMembers(events: seq<MatchEvent>, after: nat)
    ensures forall e :: e in EventsAfter(events, after) <==> e in events && e.sequence > after
  {
    if events != [] {
      EventsAfterMembers(events[1..], after);
      assert events == [events[0]] + events[1..];
    }
  }

  lemma {:induction false} EventsAfterTwice(events: seq<MatchEvent>, after: nat, later: nat)
    requires after <= later
    ensures EventsAfter(EventsAfter(events, after), later) == EventsAfter(events, later)
  {
    if events != [] {
      EventsAfterTwice(events[1..], after, later);
      if events[0].sequence > after {
        assert EventsAfter(events, after)[1..] == EventsAfter(events[1..], after);
      }
    }
  }

  lemma LogTail(events: seq<MatchEvent>)
    requires LogOk(events) && events != []
    ensures LogOk(events[1..]) && forall e :: e in events[1..] ==> events[0].sequence < e.sequence
  {
    forall e | e in events[1..] ensures e in events && events[0].sequence < e.sequence {
      var k :| 0 <= k < |events[1..]| && events[1..][k] == e;
      assert events[k + 1] == e;
    }
  }

  lemma LogGrowsFront(e: MatchEvent, rest: seq<MatchEvent>)
    requires e.sequence > 0 && LogOk(rest) && forall x :: x in rest ==> e.sequence < x.sequence
    ensures LogOk([e] + rest)
  {
    var all := [e] + rest;
    forall i, j | 0 <= i < j < |all| ensures all[i].sequence < all[j].sequence {
      assert all[j] == rest[j - 1] && rest[j - 1] in rest;
    }
  }

  lemma {:induction false} EventsAfterOk(events: seq<MatchEvent>, after: nat)
    requires LogOk(events)
    ensures LogOk(EventsAfter(events, after))
  {
    if events != [] {
      var rest := EventsAfter(events[1..], after);
      LogTail(events);
      EventsAfterOk(events[1..], after);
      EventsAfterMembers(events[1..], after);
      if events[0].sequence > after {
        LogGrowsFront(events[0], rest);
      }
    }
  }

  /** Behind the last event of a page the log goes on with the rest. */
  lemma PageAdvances(events: seq<MatchEvent>, after: nat, page: seq<MatchEvent>, rest: seq<MatchEvent>)
    requires LogOk(events) && EventsAfter(events, after) == page + rest && page != []
    ensures EventsAfter(events, page[|page| - 1].sequence) == rest
  {
    var all, last := page + rest, page[|page| - 1].sequence;
    EventsAfterOk(events, after);
    EventsAfterMembers(events, after);
    assert all[|page| - 1] == page[|page| - 1] && all[|page| - 1] in all;
    EventsAfterTwice(events, after, last);
    EventsAfterSplit(page, rest, last);
    forall e | e in page ensures e.sequence <= last {
      var k :| 0 <= k < |page| && page[k] == e;
      assert all[k] == e;
    }
    forall e | e in rest ensures e.sequence > last {
      var k :| 0 <= k < |rest| && rest[k] == e;
      assert all[|page| + k] == e;
    }
    NoneAfter(page, last);
    AllAfter(rest, last);
  }

  lemma {:induction false} ReplayPrefix(c: Config, v: View, a: seq<MatchEvent>, b: seq<MatchEvent>)
    ensures var r := ReplayEvents(c, v, a);
            if r.error.Some? then ReplayEvents(c, v, a + b) == r
            else ReplayEvents(c, v, a + b) == ReplayEvents(c, r.view, b)
    decreases |a|
  {
    if a == [] {
      assert a + b == b;
    } else {
      assert (a + b)[1..] == a[1..] + b;
      ReplayPrefix(c, ReplaySpec(c, v, a[0].result).view, a[1..], b);
    }
  }

  ghost function FromProjection(c: Config, db: Db, lastSequence: nat): Option<Memory> {
    match ProjectedBook(c, db.active)
    case None => None
    case Some(v) => Some(Memory(v, if lastSequence == 0 then db.latestApplied else lastSequence))
  }

  ghost function FromLog(c: Config, s: Snapshot, events: seq<MatchEvent>): Option<Memory> {
    if RestoreSpec(s).Failed? then None
    else
      var replayed := ReplayEvents(c, RestoreSpec(s).value, EventsAfter(events, s.body.lastApplied));
      if replayed.error.Some? then None
      else Some(Memory(replayed.view, ReplayedTo(events, s.body.lastApplied)))
  }

  ghost function FromSnapshot(s: Snapshot): Option<Memory> {
    match RestoreSpec(s) case Failed(_) => None case Done(v) => Some(Memory(v, s.body.lastApplied))
  }

  /** `reload`, a snapshot that fails the retention check makes it fail. */
  ghost function ReloadSpec(c: Config, db: Db, g: RetentionGuard): Option<Memory> {
    match db.snapshot
    case None => FromProjection(c, db, 0)
    case Some(s) =>
      var latestEvent := LatestSequence(db.events);
      if !Retained(s, g) then None
      else if db.latestApplied > s.body.lastApplied && latestEvent >= db.latestApplied then FromLog(c, s, db.events)
      else if db.latestApplied > s.body.lastApplied then FromProjection(c, db, db.latestApplied)
      else if latestEvent > s.body.lastApplied then FromLog(c, s, db.events)
      else FromSnapshot(s)
  }

  /** The restart reads the projection: there is no snapshot, or more has been applied than the log tells. */
  predicate ReadsProjection(db: Db) {
    db.snapshot.None? || (db.latestApplied > SnapshotSequence(db) && LatestSequence(db.events) < db.latestApplied)
  }

  /** The log ends at the sequence the runtime has reached, and no snapshot is ahead of it. */
  predicate Reached(db: Db, n: nat) {
    LatestSequence(db.events) == n && SnapshotSequence(db) <= n
  }

  lemma {:induction false} LastAfter(events: seq<MatchEvent>, after: nat)
    requires LogOk(events)
    ensures ReplayedTo(events, after) == if LatestSequence(events) > after then LatestSequence(events) else after
  {
    if events != [] {
      LogTail(events);
      LastAfter(events[1..], after);
      if |events| > 1 {
        assert events[0].sequence < events[|events| - 1].sequence;
      } else {
        assert events[1..] == [];
      }
    }
  }

  /** The memory `m` is the live one, exactly as far as the branch taken can know it. */
  ghost predicate Resumes(db: Db, v: View, n: nat, m: Memory) {
    && (m.view == v <==> (ReadsProjection(db) ==> NoDust(v)))
    && (m.lastSequence == n <==> (ReadsProjection(db) ==> db.latestApplied == n))
  }

  /** A restart fails exactly when it has a snapshot that fails the retention check. Else it rebuilds the live book in
      every branch, dust included, except that the projection shows no dust; and it resumes from the sequence the
      runtime had reached, except that the projection resumes from the last command marked applied, which a crash
      before marking leaves behind. */
  lemma ReloadIsLiveIff(c: Config, issued: map<string, nat>, db: Db, v: View, n: nat, g: RetentionGuard)
    requires Coherent(c, issued, db, v) && Reached(db, n)
    ensures var m := ReloadSpec(c, db, g);
            && (m.Some? <==> (db.snapshot.Some? ==> Retained(db.snapshot.value, g)))
            && (m.Some? ==> Resumes(db, v, n, m.value))
  {
    ProjectionIsLiveIffNoDust(c, issued, v);
    if db.snapshot.None? {
      ProjectionShowsLive(c, issued, db, v, 0);
    } else if Retained(db.snapshot.value, g) {
      if ReadsProjection(db) {
        ProjectionShowsLive(c, issued, db, v, db.latestApplied);
      } else {
        SnapshotLeadsLive(c, issued, db, v);
      }
    }
  }

  lemma ProjectionShowsLive(c: Config, issued: map<string, nat>, db: Db, v: View, last: nat)
    requires Coherent(c, issued, db, v) && (last == 0 || last == db.latestApplied)
    ensures var m := FromProjection(c, db, last);
            m.Some? && m.value.lastSequence == db.latestApplied && (m.value.view == v <==> NoDust(v))
  {
    ProjectedIsWF(c, issued, v);
    ProjectionIsLiveIffNoDust(c, issued, v);
  }

  lemma SnapshotLeadsLive(c: Config, issued: map<string, nat>, db: Db, v: View)
    requires Coherent(c, issued, db, v) && db.snapshot.Some? && SnapshotSequence(db) <= LatestSequence(db.events)
    ensures var s := db.snapshot.value; var live := Some(Memory(v, LatestSequence(db.events)));
            if LatestSequence(db.events) > SnapshotSequence(db) then FromLog(c, s, db.events) == live
                else FromSnapshot(s) == live
  {
    LastAfter(db.events, SnapshotSequence(db));
    if LatestSequence(db.events) <= SnapshotSequence(db) {
      LatestIsLast(db.events);
      NoneAfter(db.events, SnapshotSequence(db));
    }
  }

  // ---- Whole runs with crashes ----

  /** What can happen between two restarts: another transaction stores an order that rests nowhere, one newly accepted
      or one decided while it waited; a command is attempted (its transaction may fail), or an earlier one is marked
      applied. A crash at any point keeps the tables and loses the memory. */
  datatype Happening =
    | Store(order: Order)
    | Command(attempt: Attempt, save: bool)
    | MarkApplied(sequence: nat)

  /** The tables, the book in memory, and the sequence of the last command that committed. */
  datatype World = World(db: Db, view: View, sequence: nat)

  /** A command matches what it has read in memory and persists in a transaction of its own. If its order was decided in
      between, the transaction is skipped without an error and the matched book stays. */
  ghost function Happens(c: Config, w: World, h: Happening): World {
    match h
    case Store(o) => w.(db := w.db.(orders := w.db.orders[o.id := o]))
    case MarkApplied(n) => w.(db := w.db.(latestApplied := n))
    case Command(a, save) =>
      var applied := ApplySpec(c, w.view, a.taker, a.ids, a.now);
      if applied.outcome.Failed? then w
      else
        match PersistSpec(c, w.db, applied.outcome.value, a.sequence, save, a.persists, a.now)
        case Committed(db) => World(db, applied.view, a.sequence)
        case Skipped => w.(view := applied.view)
        case RolledBack => w
  }

  /** What a command leaves behind: nothing if it cannot be matched or its transaction fails, the book alone if its
      order was decided meanwhile, everything if it commits. */
  lemma CommandHappens(c: Config, w: World, a: Attempt, save: bool)
    requires a.taker.id in w.db.orders
    ensures var applied := ApplySpec(c, w.view, a.taker, a.ids, a.now); var n := Happens(c, w, Command(a, save));
            && (applied.outcome.Failed? ==> n == w)
            && (applied.outcome.Done? && applied.outcome.value.taker.id == a.taker.id ==>
                  var status := w.db.orders[a.taker.id].status;
                  if !status.PendingMatch? && !status.Open? &&
                      !status.PartiallyFilled? then n == w.(view := applied.view)
                  else if !a.persists then n == w
                  else n == w || (n.view == applied.view && n.sequence == a.sequence))
  {
  }

  ghost function History(c: Config, w: World, hs: seq<Happening>): World
    decreases |hs|
  {
    if hs == [] then w else History(c, Happens(c, w, hs[0]), hs[1..])
  }

  /** The tables cannot tell two books apart: with a snapshot they determine the book, without one its visible rows. */
  ghost predicate SameToTables(db: Db, v: View, w: View) {
    if db.snapshot.Some? then v == w
    else Rows(Members(v)) == Rows(Members(w)) && forall o :: Has(w, o) ==> o.id in db.orders
  }

  /** A persist that was skipped after matching leaves book and tables coherent if and only if the match changed nothing
      the tables could tell. */
  lemma SkippedCoherentIff(c: Config, issued: map<string, nat>, db: Db, v: View, taker: Order, ids: TradeIds, now: int)
    requires Coherent(c, issued, db, v) && Ticketed(issued, taker)
    ensures var w := ApplySpec(c, v, taker, ids, now).view;
            Coherent(c, issued, db, w) <==> SameToTables(db, v, w)
  {
    ApplyEffect(c, issued, v, taker, ids, now);
  }

  /** ... which for books without dust means: changed nothing at all. */
  lemma SkippedCoherentIffUnchanged(c: Config, issued: map<string, nat>, db: Db, v: View, taker: Order, ids: TradeIds,
                                    now: int)
    requires Coherent(c, issued, db, v) && Ticketed(issued, taker)
    requires NoDust(v) && NoDust(ApplySpec(c, v, taker, ids, now).view)
    ensures var w := ApplySpec(c, v, taker, ids, now).view; Coherent(c, issued, db, w) <==> w == v
  {
    var w := ApplySpec(c, v, taker, ids, now).view;
    ApplyEffect(c, issued, v, taker, ids, now);
    SkippedCoherentIff(c, issued, db, v, taker, ids, now);
    AllRowsShow(v);
    AllRowsShow(w);
    if Members(v) == Members(w) {
      CanonicalView(c, issued, v, w);
    }
  }

  lemma AllRowsShow(v: View)
    requires NoDust(v)
    ensures Rows(Members(v)) == Members(v)
  {
    assert forall o :: o in Members(v) ==> Has(v, o);
  }

  /** Commands come with ticketed takers and growing sequence ids, a snapshot is taken only of a book without dust,
      and no match is skipped that the tables would miss. */
  ghost predicate Orderly(c: Config, issued: map<string, nat>, w: World, h: Happening) {
    h.Command? ==>
      var a := ApplySpec(c, w.view, h.attempt.taker, h.attempt.ids, h.attempt.now);
      && Ticketed(issued, h.attempt.taker)
      && h.attempt.sequence > LatestSequence(w.db.events) && h.attempt.sequence > SnapshotSequence(w.db)
      && (a.outcome.Done? ==>
            var p := PersistSpec(c, w.db, a.outcome.value, h.attempt.sequence, h.save, h.attempt.persists,
                                 h.attempt.now);
            && (p.Committed? && h.save ==> NoDust(a.view))
            && (p.Skipped? ==> SameToTables(w.db, w.view, a.view)))
  }

  ghost predicate OrderlyHistory(c: Config, issued: map<string, nat>, w: World, hs: seq<Happening>)
    decreases |hs|
  {
    hs == [] || (Orderly(c, issued, w, hs[0]) && OrderlyHistory(c, issued, Happens(c, w, hs[0]), hs[1..]))
  }

  ghost predicate Sound(c: Config, issued: map<string, nat>, w: World) {
    Coherent(c, issued, w.db, w.view) && Reached(w.db, w.sequence)
  }

  lemma HappensSound(c: Config, issued: map<string, nat>, w: World, h: Happening)
    requires Sound(c, issued, w) && Orderly(c, issued, w, h)
    ensures Sound(c, issued, Happens(c, w, h))
  {
    if h.Command? {
      var a := h.attempt;
      if ApplySpec(c, w.view, a.taker, a.ids, a.now).outcome.Done? {
        PersistKeepsCoherent(c, issued, w.db, w.view, a.taker, a.ids, a.now, a.sequence, h.save, a.persists);
        SkippedCoherentIff(c, issued, w.db, w.view, a.taker, a.ids, a.now);
      }
    }
  }

  /** After any orderly history a crashed runtime reloads exactly the book it lost, dust included unless it has to
      read the projection, and resumes from the sequence it had reached unless it has to read the projection and that
      sequence was not marked applied. */
  lemma {:induction false} CrashRecovers(c: Config, issued: map<string, nat>, w: World, hs: seq<Happening>,
                                         g: RetentionGuard)
    requires Sound(c, issued, w) && OrderlyHistory(c, issued, w, hs)
    ensures var e := History(c, w, hs);
            && Sound(c, issued, e)
            && var m := ReloadSpec(c, e.db, g);
               && (m.Some? <==> (e.db.snapshot.Some? ==> Retained(e.db.snapshot.value, g)))
               && (m.Some? ==> Resumes(e.db, e.view, e.sequence, m.value))
    decreases |hs|
  {
    if hs == [] {
      ReloadIsLiveIff(c, issued, w.db, w.view, w.sequence, g);
    } else {
      HappensSound(c, issued, w, hs[0]);
      CrashRecovers(c, issued, Happens(c, w, hs[0]), hs[1..], g);
    }
  }

  /** Empty tables and an empty book are where every history starts. */
  lemma EmptyIsSound(c: Config, issued: map<string, nat>, orders: map<string, Order>)
    requires c.market != "" && Issue(issued)
    ensures Sound(c, issued, World(Db(orders, {}, [], None, 0), EMPTY_VIEW, 0))
  {
    EmptyIsWF(c, issued);
  }
}
