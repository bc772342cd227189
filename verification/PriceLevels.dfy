/** The price-level index: an aggregate of the active-order table, refreshed only at the keys a transaction touched
    (`levelTracker` and `refreshBookProjection` of internal/app/orders/service.go, `RefreshPriceLevels` of the
    repository). */
module PriceLevels {
  import opened Orders
  import opened Sums
  import opened Projection
  import opened Recovery

  datatype Key = Key(market: string, side: Side, price: int)

  datatype Level = Level(quantity: int, count: nat, firstSequence: nat)

  function KeyOf(o: Order): Key {
    Key(o.market, o.side, o.price)
  }

  /** `touch` and `RefreshPriceLevels` pass over keys without market or side. */
  predicate Usable(k: Key) {
    k.market != "" && !k.side.OtherSide?
  }

  // ---- Full aggregation ----

  ghost function RowsAt(active: set<Order>, k: Key): set<Order> {
    set o | o in active && KeyOf(o) == k && o.remaining >= MIN_ACTIVE_QUANTITY
  }

  ghost function SumRemaining(rows: set<Order>): int {
    Sum(map o | o in rows :: o.remaining)
  }

  ghost function MinSequence(rows: set<Order>): (n: nat)
    requires rows != {}
    ensures exists o :: o in rows && o.sequence == n
    ensures forall o :: o in rows ==> n <= o.sequence
  {
    var o :| o in rows;
    if rows == {o} then o.sequence
    else
      var rest := MinSequence(rows - {o});
      assert rows == (rows - {o}) + {o};
      if o.sequence < rest then o.sequence else rest
  }

  /** The aggregate of the rows at a key, as `RebuildPriceLevels` groups them. */
  ghost function LevelAt(active: set<Order>, k: Key): Option<Level> {
    var rows := RowsAt(active, k);
    if rows == {} then None else Some(Level(SumRemaining(rows), |rows|, MinSequence(rows)))
  }

  /** The table of levels equals the full aggregation of the active orders. */
  ghost predicate InSync(active: set<Order>, levels: map<Key, Level>) {
    forall k :: Stored(levels, k) == LevelAt(active, k)
  }

  function Stored(levels: map<Key, Level>, k: Key): Option<Level> {
    if k in levels then Some(levels[k]) else None
  }

  /** Rows of the active-order table. */
  ghost predicate RowsOk(active: set<Order>) {
    forall o :: o in active ==> RowOk(o)
  }

  predicate RowOk(o: Order) {
    IsActiveRow(o) && o.sequence > 0 && Usable(KeyOf(o))
  }

  // ---- Refresh and prune ----

  /** What a refresh of these keys stores at `k`. */
  ghost function Refreshed(levels: map<Key, Level>, active: set<Order>, keys: set<Key>, k: Key): Option<Level> {
    if k in keys && Usable(k) then LevelAt(active, k) else Stored(levels, k)
  }

  ghost function RefreshSpec(levels: map<Key, Level>, active: set<Order>, keys: set<Key>): map<Key, Level> {
    map k | k in levels.Keys + keys && Refreshed(levels, active, keys, k).Some? ::
        Refreshed(levels, active, keys, k).value
  }

  lemma SameLevels(a: map<Key, Level>, b: map<Key, Level>)
    requires forall k :: Stored(a, k) == Stored(b, k)
    ensures a == b
  {
    forall k ensures k in a <==> k in b {
      assert Stored(a, k) == Stored(b, k);
    }
    forall k | k in a ensures a[k] == b[k] {
      assert Stored(a, k) == Stored(b, k);
    }
  }

  /** No bookable row is left at the key. */
  ghost predicate Stale(active: set<Order>, k: Key) {
    forall o :: o in active && KeyOf(o) == k ==> !IsActiveRow(o)
  }

  ghost function PruneSpec(levels: map<Key, Level>, active: set<Order>, market: string): map<Key, Level> {
    map k | k in levels && !(k.market == market && Stale(active, k)) :: levels[k]
  }

  ghost function RefreshBook(levels: map<Key, Level>, active: set<Order>, keys: set<Key>, market: string)
    : map<Key, Level>
  {
    PruneSpec(RefreshSpec(levels, active, keys), active, market)
  }

  lemma StaleIsEmpty(active: set<Order>, k: Key)
    requires RowsOk(active)
    ensures Stale(active, k) <==> LevelAt(active, k).None?
  {
    if LevelAt(active, k).None? {
      forall o | o in active && KeyOf(o) == k ensures !IsActiveRow(o) {
        assert o !in RowsAt(active, k);
      }
    } else {
      var o :| o in RowsAt(active, k);
      assert RowOk(o);
    }
  }

  /** What refreshing and pruning leave at one key. */
  lemma RefreshedAt(levels: map<Key, Level>, active: set<Order>, keys: set<Key>, market: string, k: Key)
    requires RowsOk(active)
    ensures Stored(RefreshBook(levels, active, keys, market), k) ==
            if k in keys && Usable(k) then LevelAt(active, k)
            else if k.market == market && LevelAt(active, k).None? then None
            else Stored(levels, k)
  {
    StaleIsEmpty(active, k);
  }

  lemma UnusableIsEmpty(active: set<Order>, k: Key)
    requires RowsOk(active) && !Usable(k)
    ensures LevelAt(active, k).None?
  {
    forall o | o in active ensures KeyOf(o) != k {
      assert RowOk(o);
    }
  }

  /** A key whose level the refresh leaves right. */
  ghost predicate Covered(active: set<Order>, next: set<Order>, keys: set<Key>, market: string, k: Key) {
    k in keys || LevelAt(next, k) == LevelAt(active, k) || (k.market == market && LevelAt(next, k).None?)
  }

  /** The exact condition of an incremental refresh: starting in sync, whatever the transaction did to the rows, the
      levels are in sync again if and only if every key whose aggregate changed was touched, or emptied in this
      market. */
  lemma RefreshSyncsIff(active: set<Order>, next: set<Order>, levels: map<Key, Level>, keys: set<Key>, market: string)
    requires RowsOk(active) && RowsOk(next) && InSync(active, levels)
    ensures InSync(next, RefreshBook(levels, next, keys, market)) <==>
              forall k :: Covered(active, next, keys, market, k)
  {
    var after := RefreshBook(levels, next, keys, market);
    forall k ensures Stored(after, k) == LevelAt(next, k) <==> Covered(active, next, keys, market, k) {
      RefreshedAt(levels, next, keys, market, k);
      assert Stored(levels, k) == LevelAt(active, k);
      if !Usable(k) {
        UnusableIsEmpty(active, k);
        UnusableIsEmpty(next, k);
      }
    }
  }

  // ---- Transactions ----

  /** Every order stays at the key it was placed at. */
  ghost predicate AtHome(home: map<string, Key>, items: set<Order>) {
    forall o :: o in items ==> o.id in home && home[o.id] == KeyOf(o)
  }

  /** Saving an order changes the rows at its own key only. */
  lemma SaveIsLocal(home: map<string, Key>, active: set<Order>, o: Order, k: Key)
    requires AtHome(home, active + {o}) && k != KeyOf(o)
    ensures RowsAt(SyncRow(active, o), k) == RowsAt(active, k)
  {
    forall x | x in RowsAt(active, k) ensures x.id != o.id {
      assert x in active + {o} && o in active + {o};
    }
  }

  lemma SaveKeepsRows(home: map<string, Key>, active: set<Order>, o: Order)
    requires AtHome(home, active + {o}) && RowsOk(active) && (IsActiveRow(o) ==> RowOk(o))
    ensures AtHome(home, SyncRow(active, o)) && RowsOk(SyncRow(active, o))
  {
    forall x | x in SyncRow(active, o) ensures x.id in home && home[x.id] == KeyOf(x) && RowOk(x) {
      assert x in active + {o};
    }
  }

  predicate Savable(home: map<string, Key>, o: Order) {
    o.id in home && home[o.id] == KeyOf(o) && (IsActiveRow(o) ==> RowOk(o))
  }

  /** Saving orders changes no row outside the keys they touch. */
  lemma {:induction false} SavesAreLocal(home: map<string, Key>, active: set<Order>, items: seq<Order>)
    requires AtHome(home, active) && RowsOk(active) && forall o :: o in items ==> Savable(home, o)
    ensures AtHome(home, SyncRows(active, items)) && RowsOk(SyncRows(active, items))
    ensures forall k :: (forall o :: o in items ==> KeyOf(o) != k) ==>
              RowsAt(SyncRows(active, items), k) == RowsAt(active, k)
    decreases |items|
  {
    if items != [] {
      var o, rest := items[0], items[1..];
      assert Savable(home, o) && forall x :: x in rest ==> x in items;
      assert AtHome(home, active + {o});
      SaveKeepsRows(home, active, o);
      SavesAreLocal(home, SyncRow(active, o), rest);
      forall k | forall x :: x in items ==> KeyOf(x) != k
        ensures RowsAt(SyncRows(active, items), k) == RowsAt(active, k)
      {
        assert o in items;
        SaveIsLocal(home, active, o, k);
      }
    }
  }

  /** The keys `levelTracker` holds after touching these orders. */
  function Touches(items: seq<Order>): (keys: set<Key>)
    ensures forall k :: k in keys <==> exists o :: o in items && KeyOf(o) == k && Usable(k)
  {
    set o | o in items && Usable(KeyOf(o)) :: KeyOf(o)
  }

  /** One transaction: the orders it saves, the orders it touches, and the market it prunes. */
  datatype Saves = Saves(items: seq<Order>, touched: seq<Order>, market: string)

  datatype Index = Index(active: set<Order>, levels: map<Key, Level>)

  ghost function Commit(x: Index, tx: Saves): Index {
    var next := SyncRows(x.active, tx.items);
    Index(next, RefreshBook(x.levels, next, Touches(tx.touched), tx.market))
  }

  ghost predicate IndexOk(home: map<string, Key>, x: Index) {
    AtHome(home, x.active) && RowsOk(x.active) && InSync(x.active, x.levels)
  }

  /** Every saved order has its key among the touched ones. */
  ghost predicate TouchesSaved(tx: Saves) {
    forall o :: o in tx.items && Usable(KeyOf(o)) ==> KeyOf(o) in Touches(tx.touched)
  }

  /** A transaction that touches the key of everything it saves leaves the index in sync. */
  lemma CommitStaysInSync(home: map<string, Key>, x: Index, tx: Saves)
    requires IndexOk(home, x) && (forall o :: o in tx.items ==> Savable(home, o)) && TouchesSaved(tx)
    ensures IndexOk(home, Commit(x, tx))
  {
    var next := SyncRows(x.active, tx.items);
    SavesAreLocal(home, x.active, tx.items);
    forall k ensures Covered(x.active, next, Touches(tx.touched), tx.market, k) {
      if !Usable(k) {
        UnusableIsEmpty(x.active, k);
        UnusableIsEmpty(next, k);
      }
    }
    RefreshSyncsIff(x.active, next, x.levels, Touches(tx.touched), tx.market);
  }

  // ---- Reconciliation ----

  /** All active rows at a key, as the reconciliation query groups them. */
  ghost function Grouped(active: set<Order>, k: Key): set<Order> {
    set o | o in active && KeyOf(o) == k
  }

  /** A row of the full outer join that the query reports. */
  ghost predicate Drifted(x: Index, k: Key) {
    var rows := Grouped(x.active, k);
    if rows == {} then k in x.levels
    else k !in x.levels || x.levels[k].quantity != SumRemaining(rows) || x.levels[k].count != |rows|
  }

  ghost function Drifts(x: Index, market: string): set<Key> {
    set k | k in (set o | o in x.active :: KeyOf(o)) + x.levels.Keys && k.market == market && Drifted(x, k)
  }

  /** Equal but for the first sequence, which reconciliation does not look at. */
  predicate SameAmounts(a: Option<Level>, b: Option<Level>) {
    match (a, b)
    case (None, None) => true
    case (Some(l), Some(m)) => l.quantity == m.quantity && l.count == m.count
    case _ => false
  }

  /** Reconciliation is sound and complete for quantities and counts. */
  lemma NoDriftIff(x: Index, market: string)
    requires RowsOk(x.active)
    ensures Drifts(x, market) == {} <==>
            forall k: Key :: k.market == market ==> SameAmounts(Stored(x.levels, k), LevelAt(x.active, k))
  {
    forall k ensures Drifted(x, k) <==> !SameAmounts(Stored(x.levels, k), LevelAt(x.active, k)) {
      forall o | o in x.active ensures o.remaining >= MIN_ACTIVE_QUANTITY {
        assert RowOk(o);
      }
      assert Grouped(x.active, k) == RowsAt(x.active, k);
    }
    forall k: Key | k.market == market ensures Drifted(x, k) <==> k in Drifts(x, market) {
      if Grouped(x.active, k) != {} {
        var o :| o in Grouped(x.active, k);
        assert o in x.active && KeyOf(o) == k;
      }
    }
  }

  // ---- The tables and the tracker, in place ----

  class LevelTracker {
    var byKey: set<Key>

    constructor ()
      ensures byKey == {}
    {
      byKey := {};
    }

    method Touch(o: Order)
      modifies this
      ensures byKey == old(byKey) + Touches([o])
    {
      if o.market == "" || o.side.OtherSide? {
        assert Touches([o]) == {};
        return;
      }
      assert o in [o];
      byKey := byKey + {KeyOf(o)};
    }
  }

  lemma SumMore(rows: set<Order>, o: Order)
    requires o !in rows
    ensures SumRemaining(rows + {o}) == SumRemaining(rows) + o.remaining
  {
    var m := map x | x in rows :: x.remaining;
    assert (map x | x in rows + {o} :: x.remaining) == m[o := o.remaining];
    SumUpdate(m, o, o.remaining);
  }

  lemma MinMore(rows: set<Order>, o: Order)
    ensures MinSequence(rows + {o}) == if rows == {} || o.sequence < MinSequence(rows) then o.sequence
              else MinSequence(rows)
  {
    var least := MinSequence(rows + {o});
    var x :| x in rows + {o} && x.sequence == least;
    assert o in rows + {o};
    if rows != {} {
      var y :| y in rows && y.sequence == MinSequence(rows);
      assert y in rows + {o};
    }
  }

  lemma RefreshMore(levels: map<Key, Level>, active: set<Order>, keys: set<Key>, k: Key)
    ensures var done := RefreshSpec(levels, active, keys);
            RefreshSpec(levels, active, keys + {k}) ==
              if !Usable(k) then done
              else if LevelAt(active, k).None? then done - {k}
              else done[k := LevelAt(active, k).value]
  {
    var done := RefreshSpec(levels, active, keys);
    var more :=
      if !Usable(k) then done else if LevelAt(active, k).None? then done - {k} else done[k := LevelAt(active, k).value];
    forall x ensures Stored(RefreshSpec(levels, active, keys + {k}), x) == Stored(more, x) {
      RefreshStores(levels, active, keys, x);
      RefreshStores(levels, active, keys + {k}, x);
    }
    SameLevels(RefreshSpec(levels, active, keys + {k}), more);
  }

  lemma RefreshStores(levels: map<Key, Level>, active: set<Order>, keys: set<Key>, k: Key)
    ensures Stored(RefreshSpec(levels, active, keys), k) == Refreshed(levels, active, keys, k)
  {
  }

  /** A level that folds these rows. */
  ghost predicate Folds(rows: set<Order>, level: Level) {
    && level.quantity == SumRemaining(rows) && level.count == |rows|
    && level.firstSequence == if rows == {} then 0 else MinSequence(rows)
  }

  lemma FoldMore(rows: set<Order>, level: Level, o: Order)
    requires Folds(rows, level) && o !in rows && o.sequence > 0 && forall x :: x in rows ==> x.sequence > 0
    ensures var first := level.firstSequence;
            Folds(rows + {o}, Level(level.quantity + o.remaining, level.count + 1,
                                    if first == 0 || (o.sequence != 0 && o.sequence < first) then o.sequence
                                        else first))
  {
    SumMore(rows, o);
    MinMore(rows, o);
    assert |rows + {o}| == |rows| + 1;
  }

  /** Rows folded into a level, in whatever order they are found. */
  method FoldRows(rows: set<Order>) returns (level: Level)
    requires forall o :: o in rows ==> o.sequence > 0
    ensures Folds(rows, level)
  {
    var rest := rows;
    ghost var done := {};
    level := Level(0, 0, 0);
    while rest != {}
      invariant done !! rest && done + rest == rows
      invariant Folds(done, level)
      decreases rest
    {
      var o :| o in rest;
      assert o in rows && forall x :: x in done ==> x in rows;
      FoldMore(done, level, o);
      var first := level.firstSequence;
      if first == 0 || (o.sequence != 0 && o.sequence < first) {
        first := o.sequence;
      }
      level := Level(level.quantity + o.remaining, level.count + 1, first);
      rest := rest - {o};
      done := done + {o};
    }
    assert done == rows;
  }

  class LevelStore {
    var active: set<Order>
    var levels: map<Key, Level>

    ghost function Contents(): Index
      reads this
    {
      Index(active, levels)
    }

    method SaveOrder(o: Order)
      modifies this`active
      ensures active == SyncRow(old(active), o)
    {
      active := set x | x in active && x.id != o.id;
      if IsActiveRow(o) {
        active := active + {o};
      }
    }

    method LevelFor(k: Key) returns (level: Level)
      requires RowsOk(active)
      ensures if level.count == 0 then LevelAt(active, k).None? else LevelAt(active, k) == Some(level)
    {
      var rows := set o | o in active && KeyOf(o) == k && o.remaining >= MIN_ACTIVE_QUANTITY;
      assert rows == RowsAt(active, k);
      assert forall o :: o in rows ==> RowOk(o);
      level := FoldRows(rows);
    }

    method RefreshPriceLevels(keys: seq<Key>)
      requires RowsOk(active)
      modifies this`levels
      ensures levels == RefreshSpec(old(levels), active, set k | k in keys)
    {
      var seen: set<Key> := {};
      var i := 0;
      assert levels == RefreshSpec(levels, active, {});
      while i < |keys|
        invariant 0 <= i <= |keys| && seen == set k | k in keys[..i]
        invariant levels == RefreshSpec(old(levels), active, seen)
      {
        var k := keys[i];
        assert keys[..i + 1] == keys[..i] + [k];
        i := i + 1;
        if k in seen {
          assert seen + {k} == seen;
          continue;
        }
        RefreshMore(old(levels), active, seen, k);
        seen := seen + {k};
        if k.market == "" || k.side.OtherSide? {
          continue;
        }
        var level := LevelFor(k);
        if level.count == 0 {
          levels := levels - {k};
        } else {
          levels := levels[k := level];
        }
      }
      assert keys[..i] == keys;
    }

    method PruneStalePriceLevels(market: string)
      modifies this`levels
      ensures levels == PruneSpec(old(levels), active, market)
    {
      levels := map k | k in levels &&
          (k.market == market ==> exists o :: o in active && KeyOf(o) == k && IsActiveRow(o)) :: levels[k];
    }

    /** A transaction over the index: save, touch, refresh, prune. */
    method SaveAndRefresh(items: seq<Order>, touched: seq<Order>, market: string)
      requires RowsOk(SyncRows(active, items))
      modifies this
      ensures Contents() == Commit(old(Contents()), Saves(items, touched, market))
    {
      var i := 0;
      assert items[0..] == items;
      while i < |items|
        invariant 0 <= i <= |items| && levels == old(levels)
        invariant SyncRows(active, items[i..]) == SyncRows(old(active), items)
      {
        assert items[i..][1..] == items[i + 1..];
        SaveOrder(items[i]);
        i := i + 1;
      }
      var tracker := new LevelTracker();
      i := 0;
      while i < |touched|
        invariant 0 <= i <= |touched| && fresh(tracker) && tracker.byKey == Touches(touched[..i])
        invariant levels == old(levels) && active == SyncRows(old(active), items)
      {
        assert touched[..i + 1] == touched[..i] + [touched[i]];
        tracker.Touch(touched[i]);
        i := i + 1;
      }
      assert touched[..i] == touched;
      var keys := Listed(tracker.byKey);
      RefreshPriceLevels(keys);
      assert (set k | k in keys) == Touches(touched);
      PruneStalePriceLevels(market);
    }
  }

  /** The keys of a set, in some order. */
  method Listed(keys: set<Key>) returns (out: seq<Key>)
    ensures forall k :: k in out <==> k in keys
  {
    out := [];
    var rest := keys;
    while rest != {}
      invariant rest <= keys && forall k :: k in out <==> k in keys - rest
      decreases rest
    {
      var k :| k in rest;
      out, rest := out + [k], rest - {k};
    }
  }
}
