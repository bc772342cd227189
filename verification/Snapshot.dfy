/** Snapshots of the resident book: internal/core/matching/snapshot.go. */
module Snapshots {
  import opened Orders
  import opened BookSpec
  import opened BookRuns
  import opened Ladder
  import opened BookSides
  import opened MarketBooks

  const SNAPSHOT_VERSION: int := 1

  datatype Body = Body(
    version: int,
    config: Config,
    lastApplied: nat,
    createdAt: int,
    activeOrders: seq<Order>)

  /** The hash of a body, taken to be collision-free: it is the body itself. */
  datatype Checksum = NoChecksum | Digest(body: Body)

  datatype Snapshot = Snapshot(body: Body, checksum: Checksum)

  function Seal(s: Snapshot): Snapshot {
    s.(checksum := Digest(s.body))
  }

  function Validate(s: Snapshot): Option<MatchError> {
    if s.body.version != SNAPSHOT_VERSION then Some(SnapshotCorrupt)
    else if s.body.config.market == "" then Some(SnapshotCorrupt)
    else if s.checksum.NoChecksum? then Some(SnapshotCorrupt)
    else if s.checksum != Digest(s.body) then Some(SnapshotCorrupt)
    else None
  }

  function CaptureSpec(c: Config, v: View, lastApplied: nat, now: int): Snapshot {
    Seal(Snapshot(Body(SNAPSHOT_VERSION, c, lastApplied, now, v.bids + v.asks), NoChecksum))
  }

  ghost function RestoreSpec(s: Snapshot): Outcome<View> {
    if Validate(s).Some? then Failed(SnapshotCorrupt)
    else
      var l := LoadSpec(s.body.config, EMPTY_VIEW, s.body.activeOrders);
      if l.error.Some? then Failed(l.error.value) else Done(l.view)
  }

  /** What the retention check knows beside the snapshot; no oldest command means an empty command log. */
  datatype RetentionGuard = RetentionGuard(oldest: nat, now: int, eventRetention: int, maxSnapshotAge: int)

  /** `validateRecoveryWindow` and `CheckSnapshotRetention`: no gap between snapshot and command log, and the snapshot
      young enough for the events behind it to be kept. */
  predicate Retained(s: Snapshot, g: RetentionGuard) {
    var age := g.now - s.body.createdAt;
    g.oldest == 0 ||
    (&& g.oldest <= s.body.lastApplied + 1
     && (g.maxSnapshotAge > 0 ==> s.body.createdAt != 0 && age <= g.maxSnapshotAge)
     && (g.eventRetention > 0 && g.maxSnapshotAge > 0 ==> g.eventRetention >= 3 * g.maxSnapshotAge)
     && (g.eventRetention > 0 && s.body.createdAt != 0 ==> age <= g.eventRetention / 3))
  }

  /** The command log still has this sequence. */
  predicate Logged(g: RetentionGuard, sequence: nat) {
    sequence >= g.oldest
  }

  /** The check passes exactly when the command log is empty, or when it has every command behind the snapshot, the
      snapshot is young enough, and events are kept three times as long as a snapshot may be old. */
  lemma RetainedIff(s: Snapshot, g: RetentionGuard)
    ensures var created, age := s.body.createdAt, g.now - s.body.createdAt;
            Retained(s, g) <==>
              || g.oldest == 0
              || (&& (forall n: nat :: n > s.body.lastApplied ==> Logged(g, n))
                  && (g.maxSnapshotAge > 0 ==> created != 0 && age <= g.maxSnapshotAge)
                  && (g.eventRetention > 0 && g.maxSnapshotAge > 0 ==> 3 * g.maxSnapshotAge <= g.eventRetention)
                  && (g.eventRetention > 0 && created != 0 ==> 3 * age <= g.eventRetention))
  {
    assert Logged(g, s.body.lastApplied + 1) <==> g.oldest <= s.body.lastApplied + 1;
  }

  /** Restoring a captured book gives that book back. */
  lemma RestoreUndoesCapture(c: Config, issued: map<string, nat>, v: View, lastApplied: nat, now: int)
    requires WF(c, issued, v)
    ensures RestoreSpec(CaptureSpec(c, v, lastApplied, now)) == Done(v)
  {
    LoadUndoesCapture(c, issued, v);
  }

  /** A snapshot is accepted exactly if it is of this version, names its market, and is sealed as it stands. */
  lemma ValidIff(s: Snapshot)
    ensures Validate(s).None? <==> s.body.version == 1 && s.body.config.market != "" && s.checksum == Digest(s.body)
    ensures Validate(s).Some? ==> RestoreSpec(s) == Failed(SnapshotCorrupt)
  {
  }

  /** A sealed snapshot stops validating as soon as any part of it changes. */
  lemma ValidateDetectsTampering(s: Snapshot, t: Snapshot)
    requires Validate(s).None? && t.checksum == s.checksum
    ensures Validate(t).None? <==> t == s
  {
  }

  /** A flattened book determines the stored ladders, queues and id index. */
  lemma SameContentsSameState(a: MarketBook, b: MarketBook)
    requires a.Valid() && b.Valid() && a.Contents() == b.Contents()
    ensures a.bids.prices == b.bids.prices && a.bids.levels == b.bids.levels
    ensures a.asks.prices == b.asks.prices && a.asks.levels == b.asks.levels
    ensures a.orders == b.orders
  {
    LadderUnique(Buy, a.bids.prices, a.bids.levels, b.bids.prices, b.bids.levels);
    LadderUnique(Sell, a.asks.prices, a.asks.levels, b.asks.prices, b.asks.levels);
    SameIndex(a.orders, b.orders, a.Contents());
  }

  lemma SameIndex(m: map<string, Ref>, n: map<string, Ref>, v: View)
    requires IndexOf(m, v) && IndexOf(n, v)
    ensures m == n
  {
    forall id ensures (id in m <==> id in n) && (id in m ==> m[id] == n[id]) {
      if id in m {
        var o :| Has(v, o) && o.id == id;
      }
      if id in n {
        var o :| Has(v, o) && o.id == id;
      }
    }
  }

  /** The queued orders of one side, price by price. */
  method CaptureSide(prices: seq<int>, levels: Levels) returns (items: seq<Order>)
    requires forall p :: p in prices ==> p in levels
    ensures items == Flatten(prices, levels)
  {
    items := [];
    var i := 0;
    assert prices[0..] == prices;
    while i < |prices|
      invariant 0 <= i <= |prices|
      invariant items + Flatten(prices[i..], levels) == Flatten(prices, levels)
    {
      assert prices[i] in prices && prices[i..][1..] == prices[i + 1..];
      var queue := levels[prices[i]];
      ghost var later := Flatten(prices[i + 1..], levels);
      assert Flatten(prices[i..], levels) == queue + later;
      assert items + (queue + later) == (items + queue) + later;
      items := items + queue;
      i := i + 1;
    }
  }

  method CaptureState(b: MarketBook, lastApplied: nat, now: int) returns (s: Snapshot)
    requires b.Valid()
    ensures s == CaptureSpec(b.config, b.Contents(), lastApplied, now)
  {
    var bids := CaptureSide(b.bids.prices, b.bids.levels);
    var asks := CaptureSide(b.asks.prices, b.asks.levels);
    s := Seal(Snapshot(Body(SNAPSHOT_VERSION, b.config, lastApplied, now, bids + asks), NoChecksum));
  }

  /** `RestoreMarketBook`: a new book, or nothing when the snapshot is refused. */
  method RestoreMarketBook(s: Snapshot, ghost issued: map<string, nat>)
    returns (book: MarketBook?, err: Option<MatchError>)
    requires Issue(issued)
    requires forall o :: o in s.body.activeOrders && IsBookable(Normalize(s.body.config, o)) ==> Ticketed(issued, o)
    ensures match RestoreSpec(s)
            case Failed(e) => book == null && err == Some(e)
            case Done(v) =>
              && err.None? && book != null && fresh(book) && fresh(book.bids) && fresh(book.asks)
              && book.Valid() && book.Contents() == v && book.config == s.body.config && book.issued == issued
  {
    err := Validate(s);
    if err.Some? {
      return null, err;
    }
    var b := new MarketBook(s.body.config, issued);
    err := b.Load(s.body.activeOrders);
    if err.Some? {
      return null, err;
    }
    book := b;
  }
}
