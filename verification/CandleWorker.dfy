/** The candle worker (internal/app/marketdata/service.go): batches of the trade log beyond an offset, folded into the
    candles and the offset advanced in one transaction. Reading the batch is not part of that transaction. */
module CandleWorker {
  import opened Orders
  import opened Sums
  import opened Candles

  datatype Offset = Offset(sequence: nat, at: int, id: string)

  const START := Offset(0, 0, "")

  datatype Store = Store(log: seq<Trade>, candles: map<Slot, Candle>, offset: Option<Offset>)

  /** Strings in dictionary order. */
  predicate Less(a: string, b: string) {
    b != "" && (a == "" || a[0] < b[0] || (a[0] == b[0] && Less(a[1..], b[1..])))
  }

  predicate Precedes(x: Trade, y: Trade) {
    x.createdAt < y.createdAt || (x.createdAt == y.createdAt && Less(x.id, y.id))
  }

  /** The log grows in the order in which the worker reads it. */
  ghost predicate LogOk(log: seq<Trade>) {
    && (forall x :: x in log ==> x.createdAt > 0)
    && forall i, j :: 0 <= i < j < |log| ==> Precedes(log[i], log[j])
  }

  /** The query of `ListTradesAfter`; a zero time asks for everything. */
  predicate Later(x: Trade, o: Offset) {
    o.at == 0 || x.createdAt > o.at || (x.createdAt == o.at && Less(o.id, x.id))
  }

  function TradesAfter(log: seq<Trade>, o: Offset): seq<Trade> {
    if log == [] then []
    else if Later(log[0], o) then [log[0]] + TradesAfter(log[1..], o)
    else TradesAfter(log[1..], o)
  }

  function BatchSize(n: int): nat {
    if n <= 0 || n > 10000 then 1000 else n
  }

  function Take(trades: seq<Trade>, n: nat): seq<Trade> {
    if n <= |trades| then trades[..n] else trades
  }

  /** What a worker holds between its reads and its transaction. */
  datatype Fetched = Fetched(offset: Offset, trades: seq<Trade>)

  function OffsetOf(s: Store): Offset {
    if s.offset.Some? then s.offset.value else START
  }

  function Fetch(s: Store, size: int): Fetched {
    Fetched(OffsetOf(s), Take(TradesAfter(s.log, OffsetOf(s)), BatchSize(size)))
  }

  /** A read takes the earliest trades beyond the offset, as many as asked for, and 1000 if the number asked for is not
      between 1 and 10000. */
  lemma FetchTakes(s: Store, size: int)
    ensures var all, trades := TradesAfter(s.log, OffsetOf(s)), Fetch(s, size).trades;
            && trades <= all
            && |trades| == (var asked := if 1 <= size <= 10000 then size else 1000; if |all| < asked then |all|
                            else asked)
    ensures OffsetOf(s) == if s.offset.Some? then s.offset.value else Offset(0, 0, "")
  {
  }

  /** `AdvanceProjectionOffset`: never backwards; none on a conflict at the same sequence. */
  function Advance(existing: Option<Offset>, item: Offset): Option<Offset> {
    if existing.None? then Some(item)
    else
      var e := existing.value;
      if item.sequence < e.sequence then Some(e)
      else if item.sequence > e.sequence then Some(item)
      else if e.id != "" && item.id != "" && e.id != item.id then None
      else Some(e)
  }

  /** The stored offset never goes back and never moves sideways: it becomes the later of the two, and two different
      trades at one sequence are a conflict. */
  lemma AdvanceIsLater(existing: Offset, item: Offset)
    ensures Advance(None, item) == Some(item)
    ensures var next := Advance(Some(existing), item);
            && (next.None? <==>
                  existing.sequence == item.sequence && existing.id != "" && item.id != "" && existing.id != item.id)
            && (next.Some? ==>
                  && next.value == (if item.sequence > existing.sequence then item else existing)
                  && next.value.sequence >= existing.sequence && next.value.sequence >= item.sequence)
  {
  }

  /** An offset without a time asks for the whole log. */
  lemma {:induction false} NoTimeAsksAll(log: seq<Trade>, o: Offset)
    requires o.at == 0
    ensures TradesAfter(log, o) == log
  {
    if log != [] {
      NoTimeAsksAll(log[1..], o);
    }
  }

  function Reached(f: Fetched): Offset
    requires f.trades != []
  {
    var last := f.trades[|f.trades| - 1];
    Offset(f.offset.sequence + |f.trades|, last.createdAt, last.id)
  }

  function Commit(s: Store, f: Fetched): Store {
    if f.trades == [] then s
    else
      var next := Advance(s.offset, Reached(f));
      if next.None? then s
      else Store(s.log, Project(s.candles, f.trades), next)
  }

  // ---- Where an offset stands ----

  /** The offset names the last trade counted. */
  ghost predicate Placed(log: seq<Trade>, o: Offset) {
    && o.sequence <= |log|
    && if o.sequence == 0 then o == START else o.at == log[o.sequence - 1].createdAt && o.id == log[o.sequence - 1].id
  }

  /** The candles are exactly those of the trades counted so far. */
  ghost predicate ExactSoFar(s: Store) {
    LogOk(s.log) && Placed(s.log, OffsetOf(s)) && Exact(s.candles, s.log[..OffsetOf(s).sequence])
  }

  lemma {:induction false} LessIsStrict(a: string, b: string)
    ensures !(Less(a, b) && Less(b, a)) && !Less(a, a)
  {
    if a != "" {
      LessIsStrict(a[1..], a[1..]);
      if b != "" {
        LessIsStrict(a[1..], b[1..]);
      }
    }
  }

  lemma LogInTime(log: seq<Trade>)
    requires LogOk(log)
    ensures InTime(log)
  {
    forall i, j | 0 <= i < j < |log| ensures log[i].createdAt <= log[j].createdAt {
      assert Precedes(log[i], log[j]);
    }
  }

  lemma LaterIff(log: seq<Trade>, o: Offset, i: nat)
    requires LogOk(log) && Placed(log, o) && i < |log|
    ensures Later(log[i], o) <==> o.sequence <= i
  {
    if o.sequence > 0 {
      var n := o.sequence - 1;
      assert log[n] in log;
      LessIsStrict(log[i].id, log[n].id);
      assert i < n ==> Precedes(log[i], log[n]);
      assert n < i ==> Precedes(log[n], log[i]);
    }
  }

  lemma {:induction false} TradesAfterAt(log: seq<Trade>, o: Offset, n: nat)
    requires n <= |log| && forall i :: 0 <= i < |log| ==> (Later(log[i], o) <==> n <= i)
    ensures TradesAfter(log, o) == log[n..]
  {
    if log != [] {
      var k := if n == 0 then 0 else n - 1;
      TradesAfterAt(log[1..], o, k);
      assert n == 0 ==> [log[0]] + log[1..] == log[0..];
      assert n > 0 ==> log[1..][k..] == log[n..];
    }
  }

  /** The query beyond an offset yields the log beyond the trade it names. */
  lemma AfterIsRest(log: seq<Trade>, o: Offset)
    requires LogOk(log) && Placed(log, o)
    ensures TradesAfter(log, o) == log[o.sequence..]
  {
    forall i | 0 <= i < |log| ensures Later(log[i], o) <==> o.sequence <= i {
      LaterIff(log, o, i);
    }
    TradesAfterAt(log, o, o.sequence);
  }

  /** A batch read from this log, now or earlier. */
  ghost predicate FetchedOk(s: Store, f: Fetched) {
    && Placed(s.log, f.offset) && f.offset.sequence <= OffsetOf(s).sequence
    && f.offset.sequence + |f.trades| <= |s.log|
    && f.trades == s.log[f.offset.sequence..f.offset.sequence + |f.trades|]
  }

  lemma FetchIsOk(s: Store, size: int)
    requires ExactSoFar(s)
    ensures FetchedOk(s, Fetch(s, size))
  {
    AfterIsRest(s.log, OffsetOf(s));
  }

  // ---- A current batch is counted once ----

  lemma InTimePrefix(log: seq<Trade>, n: nat)
    requires InTime(log) && n <= |log|
    ensures InTime(log[..n])
  {
  }

  lemma CurrentCommit(s: Store, f: Fetched)
    requires ExactSoFar(s) && FetchedOk(s, f) && f.offset.sequence == OffsetOf(s).sequence
    ensures ExactSoFar(Commit(s, f)) && OffsetOf(Commit(s, f)).sequence == f.offset.sequence + |f.trades|
  {
    if f.trades != [] {
      var n, k := f.offset.sequence, |f.trades|;
      assert Advance(s.offset, Reached(f)) == Some(Reached(f));
      assert f.trades[k - 1] == s.log[n + k - 1];
      assert Exact(Project(s.candles, f.trades), s.log[..n + k]) by {
        LogInTime(s.log);
        InTimePrefix(s.log, n + k);
        assert s.log[..n] + f.trades == s.log[..n + k];
        ProjectStaysExact(s.candles, s.log[..n], f.trades);
      }
      assert Placed(s.log, Reached(f));
    }
  }

  // ---- A stale batch is counted twice ----

  /** All trades counted by the finest candles. */
  ghost function Counted(table: map<Slot, Candle>): int {
    Sum(map s | s in table && s.duration == MINUTE :: table[s].count)
  }

  lemma UpdateCounts(table: map<Slot, Candle>, x: Trade, d: int)
    requires d > 0
    ensures Counted(UpdateCandle(table, x, d)) == Counted(table) + if d == MINUTE then 1 else 0
  {
    var s := Slot(d, Truncate(x.createdAt, d));
    var next := UpdateCandle(table, x, d);
    var m := map s | s in table && s.duration == MINUTE :: table[s].count;
    var n := map s | s in next && s.duration == MINUTE :: next[s].count;
    if d == MINUTE {
      assert n == m[s := next[s].count];
      SumUpdate(m, s, next[s].count);
    } else {
      assert n == m;
    }
  }

  function Occurrences(durations: seq<int>): nat {
    if durations == [] then 0 else (if durations[0] == MINUTE then 1 else 0) + Occurrences(durations[1..])
  }

  lemma {:induction false} UpdateAllCounts(table: map<Slot, Candle>, x: Trade, durations: seq<int>)
    requires forall d :: d in durations ==> d > 0
    ensures Counted(UpdateAll(table, x, durations)) == Counted(table) + Occurrences(durations)
    decreases |durations|
  {
    if durations != [] {
      assert durations[0] in durations && forall d :: d in durations[1..] ==> d in durations;
      UpdateCounts(table, x, durations[0]);
      UpdateAllCounts(UpdateCandle(table, x, durations[0]), x, durations[1..]);
    }
  }

  lemma OneMinuteInterval()
    ensures Occurrences(DURATIONS) == 1
  {
    assert Occurrences(DURATIONS[5..]) == 0 && Occurrences(DURATIONS[6..]) == 0;
    assert DURATIONS[4..][1..] == DURATIONS[5..] && DURATIONS[3..][1..] == DURATIONS[4..];
    assert DURATIONS[2..][1..] == DURATIONS[3..] && DURATIONS[1..][1..] == DURATIONS[2..];
    assert Occurrences(DURATIONS[4..]) == 0;
    assert Occurrences(DURATIONS[3..]) == 0;
    assert Occurrences(DURATIONS[2..]) == 0;
    assert Occurrences(DURATIONS[1..]) == 0;
  }

  lemma {:induction false} ProjectCounts(table: map<Slot, Candle>, trades: seq<Trade>)
    ensures Counted(Project(table, trades)) == Counted(table) + |trades|
    decreases |trades|
  {
    if trades != [] {
      DurationsOk();
      OneMinuteInterval();
      UpdateAllCounts(table, trades[0], DURATIONS);
      ProjectCounts(UpdateAll(table, trades[0], DURATIONS), trades[1..]);
    }
  }

  lemma ExactUnique(a: map<Slot, Candle>, b: map<Slot, Candle>, log: seq<Trade>)
    requires Exact(a, log) && Exact(b, log)
    ensures a == b
  {
    forall s ensures s in a <==> s in b {
      assert Find(a, s) == Direct(log, s) == Find(b, s);
    }
    forall s | s in a ensures a[s] == b[s] {
      assert Find(a, s) == Direct(log, s) == Find(b, s);
    }
  }

  /** Exact candles count every trade once. */
  lemma ExactCounts(table: map<Slot, Candle>, log: seq<Trade>)
    requires Exact(table, log) && InTime(log)
    ensures Counted(table) == |log|
  {
    EmptyIsExact();
    assert [] + log == log;
    ProjectStaysExact(map[], [], log);
    ExactUnique(table, Project(map[], log), log);
    ProjectCounts(map[], log);
  }

  lemma StaleCommit(s: Store, f: Fetched)
    requires ExactSoFar(s) && FetchedOk(s, f) && f.trades != [] && f.offset.sequence < OffsetOf(s).sequence
    ensures !ExactSoFar(Commit(s, f))
  {
    var n, m, k := OffsetOf(s).sequence, f.offset.sequence, |f.trades|;
    var last := f.trades[k - 1];
    assert last == s.log[m + k - 1];
    var after := Commit(s, f);
    assert Advance(s.offset, Reached(f)).Some?;
    LogInTime(s.log);
    InTimePrefix(s.log, n);
    ExactCounts(s.candles, s.log[..n]);
    ProjectCounts(s.candles, f.trades);
    if ExactSoFar(after) {
      InTimePrefix(s.log, OffsetOf(after).sequence);
      ExactCounts(after.candles, s.log[..OffsetOf(after).sequence]);
    }
  }

  /** The exact condition: a commit leaves exact candles if and only if the offset it was read at is still current.
      The transaction does not check it, so a second worker that read the same offset counts its trades again. */
  lemma CommitExactIffCurrent(s: Store, f: Fetched)
    requires ExactSoFar(s) && FetchedOk(s, f) && f.trades != []
    ensures ExactSoFar(Commit(s, f)) <==> f.offset.sequence == OffsetOf(s).sequence
  {
    if f.offset.sequence == OffsetOf(s).sequence {
      CurrentCommit(s, f);
    } else {
      StaleCommit(s, f);
    }
  }

  /** Two workers that read the same batch before either commits leave wrong candles, whatever the batch. */
  lemma TwoWorkersCountTwice(s: Store, size: int)
    requires ExactSoFar(s) && Fetch(s, size).trades != []
    ensures var f := Fetch(s, size); ExactSoFar(Commit(s, f)) && !ExactSoFar(Commit(Commit(s, f), f))
  {
    var f := Fetch(s, size);
    FetchIsOk(s, size);
    CurrentCommit(s, f);
    StaleCommit(Commit(s, f), f);
  }

  // ---- Runs of one worker ----

  /** Trades are appended; the worker reads a batch, commits it, or crashes in between. */
  datatype Event = Append(trade: Trade) | Read(size: int) | Write | Crash

  datatype World = World(store: Store, held: Option<Fetched>)

  function Next(w: World, e: Event): World {
    match e
    case Append(x) => w.(store := w.store.(log := w.store.log + [x]))
    case Read(size) => w.(held := Some(Fetch(w.store, size)))
    case Write => if w.held.None? then w else World(Commit(w.store, w.held.value), None)
    case Crash => w.(held := None)
  }

  function Run(w: World, events: seq<Event>): World
    decreases |events|
  {
    if events == [] then w else Run(Next(w, events[0]), events[1..])
  }

  /** The log only ever grows at its end. */
  ghost predicate Grows(w: World, events: seq<Event>)
    decreases |events|
  {
    events != [] ==>
      && (events[0].Append? ==> LogOk(w.store.log + [events[0].trade]))
      && Grows(Next(w, events[0]), events[1..])
  }

  ghost predicate Sound(w: World) {
    && ExactSoFar(w.store)
    && (w.held.Some? ==> FetchedOk(w.store, w.held.value) && w.held.value.offset.sequence == OffsetOf(w.store).sequence)
  }

  lemma AppendStaysSound(w: World, x: Trade)
    requires Sound(w) && LogOk(w.store.log + [x])
    ensures Sound(Next(w, Append(x)))
  {
    var log, more := w.store.log, w.store.log + [x];
    var n := OffsetOf(w.store).sequence;
    assert more[..n] == log[..n];
    assert n > 0 ==> more[n - 1] == log[n - 1];
    if w.held.Some? {
      var f := w.held.value;
      assert more[f.offset.sequence..f.offset.sequence + |f.trades|] ==
          log[f.offset.sequence..f.offset.sequence + |f.trades|];
    }
  }

  lemma NextStaysSound(w: World, e: Event)
    requires Sound(w) && (e.Append? ==> LogOk(w.store.log + [e.trade]))
    ensures Sound(Next(w, e))
  {
    match e
    case Append(x) => AppendStaysSound(w, x);
    case Read(size) => FetchIsOk(w.store, size);
    case Write =>
      if w.held.Some? {
        CurrentCommit(w.store, w.held.value);
      }
    case Crash =>
  }

  /** Whatever the batch sizes and crash points, one worker's candles are exactly those of the trades it has counted. */
  lemma {:induction false} RunStaysSound(w: World, events: seq<Event>)
    requires Sound(w) && Grows(w, events)
    ensures Sound(Run(w, events))
    decreases |events|
  {
    if events != [] {
      NextStaysSound(w, events[0]);
      RunStaysSound(Next(w, events[0]), events[1..]);
    }
  }

  lemma EmptyIsSound()
    ensures Sound(World(Store([], map[], None), None))
  {
    EmptyIsExact();
  }

  /** A worker that finds nothing more to read has the candles of the whole log. */
  lemma CaughtUp(s: Store, size: int)
    requires ExactSoFar(s)
    ensures Fetch(s, size).trades == [] <==> OffsetOf(s).sequence == |s.log|
    ensures Fetch(s, size).trades == [] ==> Exact(s.candles, s.log)
  {
    AfterIsRest(s.log, OffsetOf(s));
    assert s.log[..|s.log|] == s.log;
  }

  // ---- The tables, in place ----

  class CandleStore {
    var log: seq<Trade>
    var candles: map<Slot, Candle>
    var offset: Option<Offset>

    ghost function Contents(): Store
      reads this
    {
      Store(log, candles, offset)
    }

    method UpdateCandleRow(x: Trade, duration: int)
      requires duration > 0
      modifies this`candles
      ensures candles == UpdateCandle(old(candles), x, duration)
    {
      var s := Slot(duration, Truncate(x.createdAt, duration));
      if s !in candles {
        candles := candles[s := FirstCandle(x, s)];
        return;
      }
      var c := candles[s];
      if x.price > c.high {
        c := c.(high := x.price);
      }
      if x.price < c.low {
        c := c.(low := x.price);
      }
      if x.createdAt > c.lastTradeAt || x.createdAt == c.lastTradeAt {
        c := c.(close := x.price, lastTradeAt := x.createdAt);
      }
      c := c.(volumeBase := c.volumeBase + x.quantity, volumeQuote := c.volumeQuote + x.quoteQuantity,
              count := c.count + 1);
      candles := candles[s := c];
    }

    method UpdateIntervals(x: Trade)
      modifies this`candles
      ensures candles == UpdateAll(old(candles), x, DURATIONS)
    {
      DurationsOk();
      var i := 0;
      assert DURATIONS[0..] == DURATIONS;
      while i < |DURATIONS|
        invariant 0 <= i <= |DURATIONS|
        invariant forall d :: d in DURATIONS[i..] ==> d > 0
        invariant UpdateAll(candles, x, DURATIONS[i..]) == UpdateAll(old(candles), x, DURATIONS)
      {
        assert DURATIONS[i..][1..] == DURATIONS[i + 1..];
        UpdateCandleRow(x, DURATIONS[i]);
        i := i + 1;
      }
    }

    method UpdateCandles(items: seq<Trade>)
      modifies this`candles
      ensures candles == Project(old(candles), items)
    {
      var i := 0;
      assert items[0..] == items;
      while i < |items|
        invariant 0 <= i <= |items|
        invariant Project(candles, items[i..]) == Project(old(candles), items)
      {
        assert items[i..][1..] == items[i + 1..];
        UpdateIntervals(items[i]);
        i := i + 1;
      }
    }

    method ListTradesAfter(o: Offset, size: int) returns (page: seq<Trade>)
      ensures page == Take(TradesAfter(log, o), BatchSize(size))
    {
      page := [];
      var i := 0;
      assert log[0..] == log;
      while i < |log| && |page| < BatchSize(size)
        invariant 0 <= i <= |log| && |page| <= BatchSize(size)
        invariant page + TradesAfter(log[i..], o) == TradesAfter(log, o)
      {
        assert log[i..][1..] == log[i + 1..];
        if Later(log[i], o) {
          assert page + [log[i]] + TradesAfter(log[i + 1..], o) == page + TradesAfter(log[i..], o);
          page := page + [log[i]];
        }
        i := i + 1;
      }
    }

    /** The transaction of `processMarketCandles`; false rolls it back. */
    method CommitBatch(f: Fetched) returns (ok: bool)
      requires f.trades != []
      modifies this`candles, this`offset
      ensures Contents() == Commit(old(Contents()), f)
      ensures ok <==> Advance(old(offset), Reached(f)).Some?
    {
      var candles0 := candles;
      UpdateCandles(f.trades);
      var last := f.trades[|f.trades| - 1];
      var advanced := Advance(offset, Offset(f.offset.sequence + |f.trades|, last.createdAt, last.id));
      if advanced.None? {
        candles := candles0;
        return false;
      }
      offset := advanced;
      ok := true;
    }

    method ProcessMarketCandles(size: int) returns (processed: nat)
      modifies this`candles, this`offset
      ensures Contents() == Commit(old(Contents()), Fetch(old(Contents()), size))
      ensures processed == 0 ==> Contents() == old(Contents())
      ensures processed > 0 ==> processed == |Fetch(old(Contents()), size).trades|
    {
      var from := if offset.Some? then offset.value else START;
      var trades := ListTradesAfter(from, size);
      if |trades| == 0 {
        return 0;
      }
      var ok := CommitBatch(Fetched(from, trades));
      processed := if ok then |trades| else 0;
    }
  }
}
