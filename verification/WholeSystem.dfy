/** The asynchronous exchange of one market as a whole: stored orders, balances, log, snapshot, projection and the
    resident book, with commands whose transaction other transactions may precede (internal/app/orders/service.go,
    internal/app/matcher/resident_runtime.go). */
module WholeSystem {
  import opened Orders
  import opened Engine
  import opened BookSpec
  import opened Sweeping
  import opened MatchingLaws
  import opened BookRuns
  import opened Snapshots
  import opened Recovery
  import opened Projection
  import opened Reload
  import opened Ledger
  import opened Cover
  import opened CoverRuns
  import Conservation
  import Transactions
  import Backing

  datatype System = System(db: Db, tables: Tables, view: View, sequence: nat)

  /** The orders and balances, as the ledger transactions see them. */
  function Books(s: System): Exchange {
    Exchange(s.db.orders, s.tables)
  }

  /** What other requests do while the runtime works: none of it reaches the resident book. */
  datatype Request =
    | Place(order: Order)
    | Cancel(id: string, user: string, now: int)
    | MoveFunds(step: Conservation.Step)
    | MarkApplied(sequence: nat)

  /** A command reads its order, matches it in memory, and persists the result after the requests in `between`. */
  datatype Step =
    | Request(request: Request)
    | Command(id: string, between: seq<Request>, sequence: nat, save: bool, ids: TradeIds, now: int)

  function Stored(s: System, n: Exchange, row: Order): System {
    s.(db := s.db.(orders := n.orders, active := SyncRow(s.db.active, row)), tables := n.tables)
  }

  function Serve(s: System, x: Request): System {
    match x
    case Place(o) =>
      (match Transactions.PlaceTx(Books(s), o, true)
       case Ok(n) => Stored(s, n, n.orders[o.id])
       case Err(_) => s)
    case Cancel(id, user, now) =>
      (match Transactions.CancelTx(Books(s), id, user, now)
       case Ok(n) => if IsLive(s.db.orders[id].status) then Stored(s, n, n.orders[id]) else s
       case Err(_) => s)
    case MoveFunds(step) => s.(tables := Conservation.Next(s.tables, step))
    case MarkApplied(n) => s.(db := s.db.(latestApplied := n))
  }

  function ServeAll(s: System, xs: seq<Request>): System
    decreases |xs|
  {
    if xs == [] then s else ServeAll(Serve(s, xs[0]), xs[1..])
  }

  predicate Matchable(s: System, id: string) {
    id in s.db.orders && RuntimeMatchable(s.db.orders[id].status)
  }

  /** The command's order is there to be matched. */
  ghost predicate Takes(s: System, id: string) {
    Matchable(s, id) && !HasId(s.view, id)
  }

  /** `ProcessCommand`: the memory is put back when the transaction fails, and kept when it is skipped. */
  ghost function Persist(c: Config, s: System, a: Applied, sequence: nat, save: bool, now: int): System
    requires a.outcome.Done?
  {
    var r := a.outcome.value;
    var written := Transactions.WriteTx(Books(s), r);
    var p := PersistSpec(c, s.db, r, sequence, save, written.Ok?, now);
    if p.Committed? then System(p.db, written.value.tables, a.view, sequence)
    else if p.Skipped? then s.(view := a.view)
    else s
  }

  ghost function Next(c: Config, s: System, x: Step): System {
    match x
    case Request(request) => Serve(s, request)
    case Command(id, between, sequence, save, ids, now) =>
      var later := ServeAll(s, between);
      if !Takes(s, id) then later
      else
        var a := ApplySpec(c, s.view, TakerOf(s.db.orders[id], now), ids, now);
        if a.outcome.Failed? then later else Persist(c, later, a, sequence, save, now)
  }

  ghost function Run(c: Config, s: System, steps: seq<Step>): System
    decreases |steps|
  {
    if steps == [] then s else Run(c, Next(c, s, steps[0]), steps[1..])
  }

  // ---- The invariant ----

  /** The members of a book that the store still has as live. */
  ghost function LiveOf(orders: map<string, Order>, members: set<Order>): set<Order> {
    set o | o in members && o.id in orders && IsLive(orders[o.id].status)
  }

  ghost predicate OfMarket(c: Config, issued: map<string, nat>, orders: map<string, Order>) {
    forall id :: id in orders ==>
      orders[id].id == id && OfAssets(c, issued, orders[id])
  }

  predicate OfAssets(c: Config, issued: map<string, nat>, o: Order) {
    Ticketed(issued, o) && o.baseAsset == c.baseAsset && o.quoteAsset == c.quoteAsset
  }

  /** Store, projection and log agree with the resident book: what rests is stored as it rests or cancelled since, the
      projection shows what is live of it, and the latest snapshot with the log behind it leads to it. */
  ghost predicate Agrees(c: Config, issued: map<string, nat>, s: System) {
    && WF(c, issued, s.view) && c.baseAsset != "" && c.quoteAsset != ""
    && OfMarket(c, issued, s.db.orders) && Transactions.Shows(s.db.orders, s.view)
    && s.db.active == Rows(LiveOf(s.db.orders, Members(s.view)))
    && LogOk(s.db.events) && EventsTicketed(c, issued, s.db.events) && Reached(s.db, s.sequence)
    && (s.db.snapshot.Some? ==> LeadsTo(c, issued, s.db.snapshot.value, s.db.events, s.view))
  }

  /** Money is conserved, what is locked is what the reservations hold, and in every asset but the quote that is what is
      left of the live sell orders. */
  ghost predicate Balanced(c: Config, s: System) {
    && Conservation.Conserved(s.tables) && Backing.Backed(Books(s))
    && forall asset :: asset != c.quoteAsset ==> Covered(Books(s), asset)
  }

  ghost predicate Sound(c: Config, issued: map<string, nat>, s: System) {
    Agrees(c, issued, s) && Balanced(c, s)
  }

  /** A request as the service starts it. */
  predicate Legal(c: Config, issued: map<string, nat>, x: Request) {
    match x
    case Place(o) =>
      Transactions.Built(o) && Ticketed(issued, o) && o.baseAsset == c.baseAsset && o.quoteAsset == c.quoteAsset
    case MoveFunds(step) => Transactions.MovesFunds(step)
    case _ => true
  }

  /** The projection shows the whole book: no dust rests in it and none of its orders was cancelled. */
  ghost predicate ShowsAll(orders: map<string, Order>, v: View) {
    NoDust(v) && forall o :: Has(v, o) ==> o.id in orders && IsLive(orders[o.id].status)
  }

  /** What is asked of persisting: a snapshot only of the whole book, and no skip of a match that changed the book. */
  ghost predicate GoodPersist(s: System, n: System, id: string, sequence: nat, save: bool) {
    && (save && n.sequence == sequence ==> ShowsAll(n.db.orders, n.view))
    && (!Matchable(s, id) ==> n.view == s.view)
  }

  /** Commands come in order of their sequence, a snapshot is taken only when the projection shows the whole book, and
      no match is skipped that changed the book. */
  ghost predicate Orderly(c: Config, issued: map<string, nat>, s: System, x: Step) {
    match x
    case Request(request) => Legal(c, issued, request)
    case Command(id, between, sequence, save, ids, now) =>
      && (forall y :: y in between ==> Legal(c, issued, y))
      && sequence > LatestSequence(s.db.events) && sequence > SnapshotSequence(s.db)
      && (Takes(s, id) ==>
            var later, n := ServeAll(s, between), Next(c, s, x);
            GoodPersist(later, n, id, sequence, save))
  }

  // ---- Requests ----

  /** No order is lost, and one that has ended stays ended. */
  predicate Kept(before: map<string, Order>, after: map<string, Order>) {
    forall id :: id in before ==> id in after && (after[id] == before[id] || !IsLive(after[id].status))
  }

  function TxOf(x: Request): Transactions.Tx
    requires !x.MarkApplied?
  {
    match x
    case Place(o) => Transactions.Tx.Place(o, true)
    case Cancel(id, user, now) => Transactions.Tx.Cancel(id, user, now)
    case MoveFunds(step) => Transactions.Tx.MoveFunds(step)
  }

  lemma ServeIsTx(s: System, x: Request)
    requires !x.MarkApplied?
    ensures Books(Serve(s, x)) == Transactions.Next(Books(s), TxOf(x))
  {
  }

  lemma ServeBalanced(c: Config, issued: map<string, nat>, s: System, x: Request)
    requires Balanced(c, s) && Legal(c, issued, x)
    ensures Balanced(c, Serve(s, x))
  {
    if x.MarkApplied? {
      assert Books(Serve(s, x)) == Books(s);
    } else {
      ServeIsTx(s, x);
      Transactions.NextConserves(Books(s), TxOf(x));
      Backing.NextBacked(Books(s), TxOf(x));
      forall asset | asset != c.quoteAsset ensures Covered(Books(Serve(s, x)), asset) {
        assert Covered(Books(s), asset);
        Transactions.NextCovers(Books(s), TxOf(x), asset);
      }
    }
  }

  /** A row that rests nowhere: new, or cancelled in place. */
  predicate Aside(orders: map<string, Order>, row: Order) {
    && !IsOpenStatus(row.status)
    && (row.id in orders ==>
          !IsLive(row.status) && row == orders[row.id].(status := Canceled, remaining := 0, updatedAt := row.updatedAt))
  }

  lemma AsideShows(orders: map<string, Order>, v: View, row: Order)
    requires Transactions.Shows(orders, v) && Aside(orders, row)
    ensures Transactions.Shows(orders[row.id := row], v)
  {
    var next := orders[row.id := row];
    forall o | Has(v, o) ensures o.id in next && Transactions.StoredAs(o, next[o.id]) {
      assert o.id in orders && Transactions.StoredAs(o, orders[o.id]);
    }
  }

  lemma AsideLive(orders: map<string, Order>, v: View, row: Order)
    requires Transactions.Shows(orders, v) && Aside(orders, row)
    ensures SyncRow(Rows(LiveOf(orders, Members(v))), row) == Rows(LiveOf(orders[row.id := row], Members(v)))
  {
    var members := Members(v);
    forall o | o in members ensures o.id in orders {
      assert Has(v, o);
    }
    assert LiveOf(orders[row.id := row], members) == set o | o in LiveOf(orders, members) && o.id != row.id;
  }

  lemma StoreAgrees(c: Config, issued: map<string, nat>, s: System, n: Exchange, row: Order)
    requires Agrees(c, issued, s) && n.orders == s.db.orders[row.id := row]
    requires OfAssets(c, issued, row) && Aside(s.db.orders, row)
    ensures Agrees(c, issued, Stored(s, n, row))
  {
    AsideShows(s.db.orders, s.view, row);
    AsideLive(s.db.orders, s.view, row);
  }

  lemma ServeAgrees(c: Config, issued: map<string, nat>, s: System, x: Request)
    requires Agrees(c, issued, s) && Legal(c, issued, x)
    ensures Agrees(c, issued, Serve(s, x))
  {
    match x
    case Place(o) =>
      var placed := Transactions.PlaceTx(Books(s), o, true);
      if placed.Ok? {
        StoreAgrees(c, issued, s, placed.value, placed.value.orders[o.id]);
      }
    case Cancel(id, user, now) =>
      var cancelled := Transactions.CancelTx(Books(s), id, user, now);
      if cancelled.Ok? && IsLive(s.db.orders[id].status) {
        StoreAgrees(c, issued, s, cancelled.value, cancelled.value.orders[id]);
      }
    case _ =>
  }

  lemma ServeKeeps(s: System, x: Request)
    ensures var n := Serve(s, x);
            && Kept(s.db.orders, n.db.orders) && n.view == s.view && n.sequence == s.sequence
            && n.db.events == s.db.events && n.db.snapshot == s.db.snapshot
  {
  }

  lemma {:induction false} ServeAllSound(c: Config, issued: map<string, nat>, s: System, xs: seq<Request>)
    requires Sound(c, issued, s) && forall x :: x in xs ==> Legal(c, issued, x)
    ensures var n := ServeAll(s, xs);
            && Sound(c, issued, n)
            && Kept(s.db.orders, n.db.orders) && n.view == s.view && n.sequence == s.sequence
            && n.db.events == s.db.events && n.db.snapshot == s.db.snapshot
    decreases |xs|
  {
    if xs != [] {
      assert xs[0] in xs && forall x :: x in xs[1..] ==> x in xs;
      ServeAgrees(c, issued, s, xs[0]);
      ServeBalanced(c, issued, s, xs[0]);
      ServeKeeps(s, xs[0]);
      ServeAllSound(c, issued, Serve(s, xs[0]), xs[1..]);
    }
  }

  /** A placed order waits to be taken by its command, a stop does not. */
  lemma PlacedIsTaken(s: System, o: Order)
    requires Transactions.PlaceTx(Books(s), o, true).Ok? && (o.status.Open? || o.status.PendingStop?)
    ensures Takes(Serve(s, Place(o)), o.id) <==> o.status.Open? && !HasId(s.view, o.id)
  {
  }

  /** A request takes effect: the row of a placed order is stored, a canceled order leaves the rows and the projection
      and keeps its place in the resident book, a command is marked applied. */
  lemma ServedTakesEffect(s: System, o: Order, id: string, user: string, now: int, n: nat, step: Conservation.Step)
    requires id in s.db.orders && s.db.orders[id].id == id
    ensures var p := Transactions.PlaceTx(Books(s), o, true);
            p.Ok? ==> o.id in Serve(s, Place(o)).db.orders && Serve(s, Place(o)).tables == p.value.tables
    ensures var c := Transactions.CancelTx(Books(s), id, user, now);
            var w, live := Serve(s, Cancel(id, user, now)), s.db.orders[id].status;
            c.Ok? && (live.PendingMatch? || live.PendingStop? || live.Open? || live.PartiallyFilled?) ==>
              && w.db.orders == s.db.orders[id :=
                                            s.db.orders[id].(status := Canceled, remaining := 0, updatedAt := now)]
              && w.tables == c.value.tables && w.view == s.view
              && w.db.active == set x | x in s.db.active && x.id != id
    ensures Serve(s, Request.MarkApplied(n)).db.latestApplied == n
    ensures Serve(s, MoveFunds(step)).tables == Conservation.Next(s.tables, step)
  {
  }

  // ---- Commands ----

  /** Members of a book are stored as they rest, or cancelled since. */
  ghost predicate Shown(orders: map<string, Order>, members: set<Order>) {
    forall o :: o in members ==> o.id in orders && Transactions.StoredAs(o, orders[o.id])
  }

  /** Saving a result makes store and book move together. */
  lemma {:induction false} SaveFollows(orders: map<string, Order>, members: set<Order>, items: seq<Order>)
    requires Shown(orders, members)
    ensures Shown(SaveAll(orders, items), SyncAll(members, items))
    ensures LiveOf(SaveAll(orders, items), SyncAll(members, items)) == SyncAll(LiveOf(orders, members), items)
    decreases |items|
  {
    if items != [] {
      var next := orders[items[0].id := items[0]];
      assert LiveOf(next, Sync(members, items[0])) == Sync(LiveOf(orders, members), items[0]);
      SaveFollows(next, Sync(members, items[0]), items[1..]);
    }
  }

  /** The projection loads into the book it shows, and into the live one if and only if it shows all of that. */
  lemma ProjectionIsLiveIff(c: Config, issued: map<string, nat>, orders: map<string, Order>, v: View)
    requires WF(c, issued, v)
    ensures var p := ProjectedBook(c, Rows(LiveOf(orders, Members(v))));
            p.Some? && WF(c, issued, p.value) && (p.value == v <==> ShowsAll(orders, v))
  {
    var rows := Rows(LiveOf(orders, Members(v)));
    RowsAreOk(c, issued, v);
    assert rows <= Rows(Members(v));
    ProjectionLoads(c, issued, rows, Listing(rows));
    var w := ProjectedBook(c, rows).value;
    assert forall o :: o in Members(v) <==> Has(v, o);
    assert forall o :: o in Members(w) <==> Has(w, o);
    if ShowsAll(orders, v) {
      assert Members(v) == rows;
      CanonicalView(c, issued, v, w);
    }
  }

  /** The snapshot taken with a commit leads to the matched book if and only if the projection shows all of it. */
  lemma SnapshotLeadsIff(c: Config, issued: map<string, nat>, orders: map<string, Order>, v: View,
                         events: seq<MatchEvent>,
                         sequence: nat, now: int)
    requires WF(c, issued, v) && forall e :: e in events ==> e.sequence <= sequence
    ensures var s := ProjectionSnapshot(c, Rows(LiveOf(orders, Members(v))), sequence, now);
            && s.Some? && s.value.body.lastApplied == sequence
            && (LeadsTo(c, issued, s.value, events, v) <==> ShowsAll(orders, v))
  {
    ProjectionIsLiveIff(c, issued, orders, v);
    FreshSnapshotLeads(c, issued, ProjectedBook(c, Rows(LiveOf(orders, Members(v)))).value, v, events, sequence, now);
  }

  /** A taker as it was read, with whatever happened to its order since. */
  ghost predicate ReadBefore(c: Config, issued: map<string, nat>, s: System, taker: Order) {
    && OfAssets(c, issued, taker) && taker.id in s.db.orders
    && (Matchable(s, taker.id) ==> Transactions.TakenFrom(s.db.orders, taker))
  }

  /** The rows of a result are of this market, too. */
  lemma ResultOfMarket(c: Config, issued: map<string, nat>, orders: map<string, Order>, r: MatchResult)
    requires OfMarket(c, issued, orders) && Consistent(orders, r)
    ensures OfMarket(c, issued, SaveAll(orders, r.makers + [r.taker]))
  {
    SaveOthers(orders, r.makers, r.trades, r.taker);
    Transactions.SaveAllSplit(orders, r.makers, r.taker);
  }

  /** A matched result, as `Apply` reports it on the book of `s`. */
  ghost predicate Matches(c: Config, issued: map<string, nat>, s: System, a: Applied) {
    && a.outcome.Done?
    && var r := a.outcome.value;
       && WF(c, issued, a.view) && Members(a.view) == SyncAll(Members(s.view), r.makers + [r.taker])
       && Touched(r) == r.makers + [r.taker] && WritesBack(c, issued, Touched(r))
       && ReplaySpec(c, s.view, r) == Inserted(a.view, None)
  }

  lemma ApplyMatches(c: Config, issued: map<string, nat>, s: System, taker: Order, ids: TradeIds, now: int)
    requires Agrees(c, issued, s) && ReadBefore(c, issued, s, taker)
    ensures var a := ApplySpec(c, s.view, taker, ids, now);
            a.outcome.Done? ==>
              && Matches(c, issued, s, a) && a.outcome.value.taker.id == taker.id
              && (Matchable(s, taker.id) ==> Consistent(s.db.orders, a.outcome.value))
  {
    ApplyEffect(c, issued, s.view, taker, ids, now);
    if ApplySpec(c, s.view, taker, ids, now).outcome.Done? {
      DoneHasTaker(c, issued, s.view, taker, ids, now);
      ReplayIsApply(c, issued, s.view, taker, ids, now);
      if Matchable(s, taker.id) {
        Transactions.ApplyIsConsistent(c, issued, s.view, s.db.orders, taker, ids, now);
      }
    }
  }

  /** Store and projection after a commit. */
  lemma CommitShows(c: Config, issued: map<string, nat>, s: System, a: Applied)
    requires Agrees(c, issued, s) && Matches(c, issued, s, a)
    ensures var items := a.outcome.value.makers + [a.outcome.value.taker];
            && Transactions.Shows(SaveAll(s.db.orders, items), a.view)
            && SyncRows(s.db.active, items) == Rows(LiveOf(SaveAll(s.db.orders, items), Members(a.view)))
  {
    var items := a.outcome.value.makers + [a.outcome.value.taker];
    assert forall o :: o in Members(s.view) <==> Has(s.view, o);
    assert forall o :: o in Members(a.view) <==> Has(a.view, o);
    SaveFollows(s.db.orders, Members(s.view), items);
    RowsOfSyncAll(LiveOf(s.db.orders, Members(s.view)), items);
  }

  /** A command whose order is still there commits if and only if the ledger accepts its trades. */
  lemma CommitsIffSettled(c: Config, issued: map<string, nat>, s: System, a: Applied, sequence: nat, save: bool,
                          now: int)
    requires Agrees(c, issued, s) && Matches(c, issued, s, a) && Consistent(s.db.orders, a.outcome.value)
    requires Matchable(s, a.outcome.value.taker.id) && sequence > s.sequence
    ensures var r := a.outcome.value; var settles := Transactions.WriteTx(Books(s), r).Ok?;
            var p := PersistSpec(c, s.db, r, sequence, save, settles, now);
            !p.Skipped? && (p.Committed? <==> settles)
  {
    var r := a.outcome.value;
    forall m | m in r.makers ensures m.id in s.db.orders {
      var i :| 0 <= i < |r.makers| && r.makers[i] == m;
      assert Fill(s.db.orders, r.makers[i], r.trades[i], r.taker);
    }
    LoggedLast(s.db, r, sequence);
    CommitShows(c, issued, s, a);
    SnapshotLeadsIff(c, issued, SaveAll(s.db.orders, r.makers + [r.taker]), a.view, [], sequence, now);
  }

  /** The snapshot a commit leaves, its own or the one before, leads to the matched book. */
  lemma CommitLeadsIff(c: Config, issued: map<string, nat>, s: System, a: Applied, sequence: nat, save: bool, now: int)
    requires Agrees(c, issued, s) && Matches(c, issued, s, a) && sequence > s.sequence
    ensures var r := a.outcome.value; var orders := SaveAll(s.db.orders, r.makers + [r.taker]);
            var events := s.db.events + [MatchEvent(sequence, r)];
            var z := if save then ProjectionSnapshot(c, SyncRows(s.db.active, r.makers + [r.taker]), sequence, now)
                else s.db.snapshot;
            && (save ==> z.Some? && z.value.body.lastApplied == sequence)
            && ((z.Some? ==> LeadsTo(c, issued, z.value, events, a.view)) <==> (save ==> ShowsAll(orders, a.view)))
  {
    var r := a.outcome.value;
    LoggedLast(s.db, r, sequence);
    if save {
      CommitShows(c, issued, s, a);
      SnapshotLeadsIff(c, issued, SaveAll(s.db.orders, r.makers + [r.taker]), a.view,
                       s.db.events + [MatchEvent(sequence, r)],
                       sequence, now);
    } else if s.db.snapshot.Some? {
      LeadsFurther(c, issued, s.db.snapshot.value, s.db.events, s.view, MatchEvent(sequence, r), a.view);
    }
  }

  /** After a commit everything agrees with the matched book, unless a snapshot was taken of a projection that does not
      show all of it. */
  lemma CommitAgreesIff(c: Config, issued: map<string, nat>, s: System, a: Applied, sequence: nat, save: bool, now: int)
    requires Agrees(c, issued, s) && Matches(c, issued, s, a) && Consistent(s.db.orders, a.outcome.value)
    requires sequence > s.sequence
    ensures var n := Persist(c, s, a, sequence, save, now);
            n.sequence == sequence ==> (Agrees(c, issued, n) <==> (save ==> ShowsAll(n.db.orders, n.view)))
  {
    var r := a.outcome.value;
    LoggedLast(s.db, r, sequence);
    CommitShows(c, issued, s, a);
    ResultOfMarket(c, issued, s.db.orders, r);
    EventsTicketedGrow(c, issued, s.db.events, MatchEvent(sequence, r));
    CommittedTables(c, s.db, r, sequence, save, Transactions.WriteTx(Books(s), r).Ok?, now);
    CommitLeadsIff(c, issued, s, a, sequence, save, now);
  }

  lemma PersistBalanced(c: Config, s: System, a: Applied, sequence: nat, save: bool, now: int)
    requires Balanced(c, s) && a.outcome.Done?
    requires Matchable(s, a.outcome.value.taker.id) ==> Consistent(s.db.orders, a.outcome.value)
    ensures Balanced(c, Persist(c, s, a, sequence, save, now))
  {
    var r, n := a.outcome.value, Persist(c, s, a, sequence, save, now);
    var written := Transactions.WriteTx(Books(s), r);
    if PersistSpec(c, s.db, r, sequence, save, written.Ok?, now).Committed? {
      CommittedTables(c, s.db, r, sequence, save, written.Ok?, now);
      assert Books(n) == written.value;
      Transactions.WriteConserves(Books(s), r);
      Backing.WriteBacked(Books(s), r);
    } else {
      assert Books(n) == Books(s);
    }
    forall asset | asset != c.quoteAsset ensures Covered(Books(n), asset) {
      assert Covered(Books(s), asset);
      if PersistSpec(c, s.db, r, sequence, save, written.Ok?, now).Committed? {
        Transactions.WriteCovers(Books(s), asset, r);
      } else {
        assert Books(n) == Books(s);
      }
    }
  }

  lemma PersistAgrees(c: Config, issued: map<string, nat>, s: System, a: Applied, sequence: nat, save: bool, now: int)
    requires Agrees(c, issued, s) && Matches(c, issued, s, a) && sequence > s.sequence
    requires Matchable(s, a.outcome.value.taker.id) ==> Consistent(s.db.orders, a.outcome.value)
    requires GoodPersist(s, Persist(c, s, a, sequence, save, now), a.outcome.value.taker.id, sequence, save)
    ensures Agrees(c, issued, Persist(c, s, a, sequence, save, now))
  {
    if Matchable(s, a.outcome.value.taker.id) {
      CommitsIffSettled(c, issued, s, a, sequence, save, now);
      CommitAgreesIff(c, issued, s, a, sequence, save, now);
    } else {
      assert Persist(c, s, a, sequence, save, now) == s;
    }
  }

  lemma ReadStays(c: Config, issued: map<string, nat>, s: System, later: System, id: string, now: int)
    requires Agrees(c, issued, s) && Kept(s.db.orders, later.db.orders) && Matchable(s, id)
    ensures ReadBefore(c, issued, later, TakerOf(s.db.orders[id], now)) && TakerOf(s.db.orders[id], now).id == id
  {
  }

  lemma PersistSound(c: Config, issued: map<string, nat>, s: System, taker: Order, ids: TradeIds, sequence: nat,
                     save: bool, now: int)
    requires Sound(c, issued, s) && ReadBefore(c, issued, s, taker) && sequence > s.sequence
    requires ApplySpec(c, s.view, taker, ids, now).outcome.Done?
    requires GoodPersist(s, Persist(c, s, ApplySpec(c, s.view, taker, ids, now), sequence, save, now), taker.id,
                         sequence, save)
    ensures Sound(c, issued, Persist(c, s, ApplySpec(c, s.view, taker, ids, now), sequence, save, now))
  {
    var a := ApplySpec(c, s.view, taker, ids, now);
    ApplyMatches(c, issued, s, taker, ids, now);
    PersistBalanced(c, s, a, sequence, save, now);
    PersistAgrees(c, issued, s, a, sequence, save, now);
  }

  /** A match whose order was decided meanwhile stays in the resident book and reaches nothing else; one whose
      transaction fails is undone. */
  lemma SkippedKeepsMatch(c: Config, s: System, a: Applied, sequence: nat, save: bool, now: int)
    requires a.outcome.Done? && a.outcome.value.taker.id in s.db.orders
    ensures var n := Persist(c, s, a, sequence, save, now);
            var status := s.db.orders[a.outcome.value.taker.id].status;
            var undecided := status.PendingMatch? || status.Open? || status.PartiallyFilled?;
            && (!undecided ==> n == s.(view := a.view))
            && (undecided && Transactions.WriteTx(Books(s), a.outcome.value).Err? ==> n == s)
  {
  }

  /** A command with nothing served in between. */
  lemma CommandAlone(c: Config, s: System, id: string, sequence: nat, save: bool, ids: TradeIds, now: int)
    requires Takes(s, id)
    ensures var a := ApplySpec(c, s.view, TakerOf(s.db.orders[id], now), ids, now);
            Next(c, s, Step.Command(id, [], sequence, save, ids, now)) ==
            if a.outcome.Failed? then s else Persist(c, s, a, sequence, save, now)
  {
    assert ServeAll(s, []) == s;
  }

  /** The command of a placed order matches it: what `Apply` makes of the order, opened, is in the book, and stored if
      the ledger accepts it. */
  lemma PlacedIsMatched(c: Config, issued: map<string, nat>, s: System, o: Order, ids: TradeIds, sequence: nat,
                        save: bool,
                        now: int)
    requires Sound(c, issued, s) && Legal(c, issued, Place(o)) && o.status.Open? && !HasId(s.view, o.id)
    requires Transactions.PlaceTx(Books(s), o, true).Ok? && sequence > s.sequence
    ensures var placed := Serve(s, Place(o));
            var a := ApplySpec(c, s.view, o.(updatedAt := now), ids, now);
            var n := Next(c, placed, Step.Command(o.id, [], sequence, save, ids, now));
            a.outcome.Done? && Transactions.WriteTx(Books(placed), a.outcome.value).Ok? ==>
              Persisted(placed, n, a, sequence)
  {
    var placed, taker := Serve(s, Place(o)), o.(updatedAt := now);
    var a := ApplySpec(c, s.view, taker, ids, now);
    ServeAgrees(c, issued, s, Place(o));
    PlacedIsTaken(s, o);
    PlacedAside(s, o, now);
    CommandAlone(c, placed, o.id, sequence, save, ids, now);
    ReadStays(c, issued, placed, placed, o.id, now);
    ApplyMatches(c, issued, placed, taker, ids, now);
    if a.outcome.Done? && Transactions.WriteTx(Books(placed), a.outcome.value).Ok? {
      AcceptedIsPersisted(c, issued, placed, a, sequence, save, now);
    }
  }

  lemma PlacedAside(s: System, o: Order, now: int)
    requires Transactions.PlaceTx(Books(s), o, true).Ok? && o.status.Open?
    ensures var placed := Serve(s, Place(o));
            && placed.view == s.view && placed.sequence == s.sequence
            && o.id in placed.db.orders && TakerOf(placed.db.orders[o.id], now) == o.(updatedAt := now)
  {
  }

  /** What a commit leaves: the matched book, the rows of the result, its event, and the balances the ledger made of
      it. */
  ghost predicate Persisted(s: System, n: System, a: Applied, sequence: nat)
    requires a.outcome.Done? && Transactions.WriteTx(Books(s), a.outcome.value).Ok?
  {
    && n.view == a.view && n.sequence == sequence
    && n.db.orders == SaveAll(s.db.orders, a.outcome.value.makers + [a.outcome.value.taker])
    && MatchEvent(sequence, a.outcome.value) in n.db.events
    && n.tables == Transactions.WriteTx(Books(s), a.outcome.value).value.tables
  }

  lemma AcceptedIsPersisted(c: Config, issued: map<string, nat>, s: System, a: Applied, sequence: nat, save: bool,
                            now: int)
    requires Agrees(c, issued, s) && Matches(c, issued, s, a) && Consistent(s.db.orders, a.outcome.value)
    requires Matchable(s, a.outcome.value.taker.id) && sequence > s.sequence
    requires Transactions.WriteTx(Books(s), a.outcome.value).Ok?
    ensures Persisted(s, Persist(c, s, a, sequence, save, now), a, sequence)
  {
    CommitsIffSettled(c, issued, s, a, sequence, save, now);
    CommittedTables(c, s.db, a.outcome.value, sequence, save, true, now);
    LoggedLast(s.db, a.outcome.value, sequence);
  }

  /** A command that hits a sell order cancelled behind the back of the book has no effect at all: its settlement
      fails, and the book is put back with the cancelled order still in it, for the next command to hit. */
  lemma CancelledAskBlocks(c: Config, issued: map<string, nat>, s: System, taker: Order, ids: TradeIds, sequence: nat,
                           save: bool, now: int)
    requires Sound(c, issued, s) && ReadBefore(c, issued, s, taker) && Matchable(s, taker.id) && sequence > s.sequence
    requires c.baseAsset != c.quoteAsset && ApplySpec(c, s.view, taker, ids, now).outcome.Done?
    requires !SellersRest(s.db.orders, ApplySpec(c, s.view, taker, ids, now).outcome.value.makers, c.baseAsset)
    ensures Persist(c, s, ApplySpec(c, s.view, taker, ids, now), sequence, save, now) == s
  {
    var a := ApplySpec(c, s.view, taker, ids, now);
    ApplyMatches(c, issued, s, taker, ids, now);
    CommitsIffSettled(c, issued, s, a, sequence, save, now);
    assert Covered(Books(s), c.baseAsset);
    Transactions.GoneSellerFails(Books(s), c.baseAsset, a.outcome.value);
  }

  lemma CommandSound(c: Config, issued: map<string, nat>, s: System, x: Step)
    requires Sound(c, issued, s) && x.Command? && Orderly(c, issued, s, x)
    ensures Sound(c, issued, Next(c, s, x))
  {
    var later := ServeAll(s, x.between);
    ServeAllSound(c, issued, s, x.between);
    if Takes(s, x.id) {
      var taker := TakerOf(s.db.orders[x.id], x.now);
      ReadStays(c, issued, s, later, x.id, x.now);
      if ApplySpec(c, s.view, taker, x.ids, x.now).outcome.Done? {
        PersistSound(c, issued, later, taker, x.ids, x.sequence, x.save, x.now);
      }
    }
  }

  ghost predicate OrderlyRun(c: Config, issued: map<string, nat>, s: System, steps: seq<Step>)
    decreases |steps|
  {
    steps == [] || (Orderly(c, issued, s, steps[0]) && OrderlyRun(c, issued, Next(c, s, steps[0]), steps[1..]))
  }

  /** Over every orderly run of placements, commands, cancels, deposits and withdrawals, in any interleaving: store,
      projection and log agree with the resident book, money is conserved, every locked
      unit is reserved, and sell orders are covered to the unit. */
  lemma {:induction false} RunStaysSound(c: Config, issued: map<string, nat>, s: System, steps: seq<Step>)
    requires Sound(c, issued, s) && OrderlyRun(c, issued, s, steps)
    ensures Sound(c, issued, Run(c, s, steps))
    decreases |steps|
  {
    if steps != [] {
      if steps[0].Request? {
        ServeAgrees(c, issued, s, steps[0].request);
        ServeBalanced(c, issued, s, steps[0].request);
      } else {
        CommandSound(c, issued, s, steps[0]);
      }
      RunStaysSound(c, issued, Next(c, s, steps[0]), steps[1..]);
    }
  }

  // ---- Restarts ----

  /** The memory `m` is the live one, exactly as far as the branch taken can know it. */
  ghost predicate Resumes(s: System, m: Memory) {
    && (m.view == s.view <==> (ReadsProjection(s.db) ==> ShowsAll(s.db.orders, s.view)))
    && (m.lastSequence == s.sequence <==> (ReadsProjection(s.db) ==> s.db.latestApplied == s.sequence))
  }

  /** A crash after any of it: the restart rebuilds the book it lost, cancelled orders and dust included, unless it
      reads the projection, which shows neither. */
  lemma CrashRecovers(c: Config, issued: map<string, nat>, s: System, steps: seq<Step>, g: RetentionGuard)
    requires Sound(c, issued, s) && OrderlyRun(c, issued, s, steps)
    ensures var n := Run(c, s, steps); var m := ReloadSpec(c, n.db, g);
            && (m.Some? <==> (n.db.snapshot.Some? ==> Retained(n.db.snapshot.value, g)))
            && (m.Some? ==> Resumes(n, m.value))
  {
    var n := Run(c, s, steps);
    RunStaysSound(c, issued, s, steps);
    ProjectionIsLiveIff(c, issued, n.db.orders, n.view);
    if n.db.snapshot.Some? && !ReadsProjection(n.db) {
      LogLeadsLive(c, issued, n);
    }
  }

  lemma LogLeadsLive(c: Config, issued: map<string, nat>, s: System)
    requires Agrees(c, issued, s) && s.db.snapshot.Some?
    ensures var z := s.db.snapshot.value; var live := Some(Memory(s.view, s.sequence));
            if LatestSequence(s.db.events) > SnapshotSequence(s.db) then FromLog(c, z, s.db.events) == live
                else FromSnapshot(z) == live
  {
    LastAfter(s.db.events, SnapshotSequence(s.db));
    if LatestSequence(s.db.events) <= SnapshotSequence(s.db) {
      LatestIsLast(s.db.events);
      NoneAfter(s.db.events, SnapshotSequence(s.db));
    }
  }

  lemma EmptyIsSound(c: Config, issued: map<string, nat>)
    requires c.market != "" && c.baseAsset != "" && c.quoteAsset != "" && Issue(issued)
    ensures Sound(c, issued, System(Db(map[], {}, [], None, 0), NO_TABLES, EMPTY_VIEW, 0))
  {
    EmptyIsWF(c, issued);
    Conservation.EmptyIsConserved();
    Backing.EmptyIsBacked();
    forall asset ensures Covered(Exchange(map[], NO_TABLES), asset) {
      Transactions.EmptyIsCovered(asset);
    }
  }

  const NO_TABLES := Tables(map[], map[], map[], [])
}
