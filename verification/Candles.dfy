/** Candles of one market: the incremental update of the repository (`updateCandle`) against open, high, low, close and
    volume computed directly from the trade log. */
module Candles {
  import opened Orders

  const MINUTE: int := 60_000_000_000

  /** The supported intervals, finest first (internal/core/trade/candle.go). */
  const DURATIONS: seq<int> := [MINUTE, 5 * MINUTE, 15 * MINUTE, 60 * MINUTE, 240 * MINUTE, 1440 * MINUTE]

  datatype Candle = Candle(
    openTime: int,
    closeTime: int,
    open: int,
    high: int,
    low: int,
    close: int,
    volumeBase: int,
    volumeQuote: int,
    count: nat,
    lastTradeAt: int)

  /** The key of a candle row: its interval and its open time. */
  datatype Slot = Slot(duration: int, open: int)

  function Truncate(t: int, duration: int): int
    requires duration > 0
  {
    t - t % duration
  }

  // ---- The incremental form ----

  function FirstCandle(x: Trade, s: Slot): Candle {
    Candle(s.open, s.open + s.duration, x.price, x.price, x.price, x.price, x.quantity, x.quoteQuantity, 1, x.createdAt)
  }

  function UpdatedCandle(c: Candle, x: Trade): Candle {
    var late := x.createdAt >= c.lastTradeAt;
    c.(high := if x.price > c.high then x.price else c.high,
       low := if x.price < c.low then x.price else c.low,
       close := if late then x.price else c.close,
       lastTradeAt := if late then x.createdAt else c.lastTradeAt,
       volumeBase := c.volumeBase + x.quantity,
       volumeQuote := c.volumeQuote + x.quoteQuantity,
       count := c.count + 1)
  }

  function UpdateCandle(table: map<Slot, Candle>, x: Trade, duration: int): map<Slot, Candle>
    requires duration > 0
  {
    var s := Slot(duration, Truncate(x.createdAt, duration));
    table[s := if s in table then UpdatedCandle(table[s], x) else FirstCandle(x, s)]
  }

  /** A trade goes into one candle of every interval. */
  function UpdateAll(table: map<Slot, Candle>, x: Trade, durations: seq<int>): map<Slot, Candle>
    requires forall d :: d in durations ==> d > 0
    decreases |durations|
  {
    if durations == [] then table
    else
      assert durations[0] in durations && forall d :: d in durations[1..] ==> d in durations;
      UpdateAll(UpdateCandle(table, x, durations[0]), x, durations[1..])
  }

  function Project(table: map<Slot, Candle>, trades: seq<Trade>): map<Slot, Candle>
    decreases |trades|
  {
    if trades == [] then table else Project(UpdateAll(table, trades[0], DURATIONS), trades[1..])
  }

  // ---- The direct form ----

  function Window(log: seq<Trade>, from: int, to: int): seq<Trade> {
    if log == [] then []
    else if from <= log[0].createdAt < to then [log[0]] + Window(log[1..], from, to)
    else Window(log[1..], from, to)
  }

  function High(ts: seq<Trade>): int
    requires ts != []
  {
    if |ts| == 1 || ts[0].price > High(ts[1..]) then ts[0].price else High(ts[1..])
  }

  function Low(ts: seq<Trade>): int
    requires ts != []
  {
    if |ts| == 1 || ts[0].price < Low(ts[1..]) then ts[0].price else Low(ts[1..])
  }

  function SumBase(ts: seq<Trade>): int {
    if ts == [] then 0 else ts[0].quantity + SumBase(ts[1..])
  }

  function SumQuote(ts: seq<Trade>): int {
    if ts == [] then 0 else ts[0].quoteQuantity + SumQuote(ts[1..])
  }

  /** The candle of these trades, computed from all of them at once. */
  function Ohlcv(s: Slot, ts: seq<Trade>): Candle
    requires ts != []
  {
    var last := ts[|ts| - 1];
    Candle(s.open, s.open + s.duration, ts[0].price, High(ts), Low(ts), last.price, SumBase(ts), SumQuote(ts), |ts|,
           last.createdAt)
  }

  function TradesIn(log: seq<Trade>, s: Slot): seq<Trade> {
    Window(log, s.open, s.open + s.duration)
  }

  predicate IsSlot(s: Slot) {
    s.duration in DURATIONS && s.duration > 0 && s.open % s.duration == 0
  }

  function Direct(log: seq<Trade>, s: Slot): Option<Candle> {
    if !IsSlot(s) || TradesIn(log, s) == [] then None else Some(Ohlcv(s, TradesIn(log, s)))
  }

  function Find(table: map<Slot, Candle>, s: Slot): Option<Candle> {
    if s in table then Some(table[s]) else None
  }

  /** The table holds the candles of the log and nothing else. */
  ghost predicate Exact(table: map<Slot, Candle>, log: seq<Trade>) {
    forall s :: Find(table, s) == Direct(log, s)
  }

  ghost predicate InTime(log: seq<Trade>) {
    forall i, j :: 0 <= i < j < |log| ==> log[i].createdAt <= log[j].createdAt
  }

  // ---- One more trade ----

  lemma {:induction false} WindowSplit(a: seq<Trade>, b: seq<Trade>, from: int, to: int)
    ensures Window(a + b, from, to) == Window(a, from, to) + Window(b, from, to)
  {
    if a == [] {
      assert a + b == b;
    } else {
      assert (a + b)[1..] == a[1..] + b;
      WindowSplit(a[1..], b, from, to);
    }
  }

  lemma {:induction false} WindowMembers(log: seq<Trade>, from: int, to: int)
    ensures forall x :: x in Window(log, from, to) <==> x in log && from <= x.createdAt < to
  {
    if log != [] {
      WindowMembers(log[1..], from, to);
      assert log == [log[0]] + log[1..];
    }
  }

  lemma {:induction false} SumsSplit(a: seq<Trade>, b: seq<Trade>)
    ensures SumBase(a + b) == SumBase(a) + SumBase(b) && SumQuote(a + b) == SumQuote(a) + SumQuote(b)
  {
    if a == [] {
      assert a + b == b;
    } else {
      assert (a + b)[1..] == a[1..] + b;
      SumsSplit(a[1..], b);
    }
  }

  /** The high and the low are the greatest and the least price traded. */
  lemma {:induction false} HighAndLow(ts: seq<Trade>)
    requires ts != []
    ensures forall x :: x in ts ==> Low(ts) <= x.price <= High(ts)
    ensures (exists x :: x in ts && x.price == High(ts)) && (exists x :: x in ts && x.price == Low(ts))
  {
    assert ts == [ts[0]] + ts[1..] && ts[0] in ts;
    if |ts| > 1 {
      HighAndLow(ts[1..]);
      var x :| x in ts[1..] && x.price == High(ts[1..]);
      var y :| y in ts[1..] && y.price == Low(ts[1..]);
      assert x in ts && y in ts;
    }
  }

  lemma {:induction false} HighSplit(a: seq<Trade>, b: seq<Trade>)
    requires a != [] && b != []
    ensures High(a + b) == if High(b) > High(a) then High(b) else High(a)
    ensures Low(a + b) == if Low(b) < Low(a) then Low(b) else Low(a)
  {
    assert (a + b)[0] == a[0] && (a + b)[1..] == a[1..] + b;
    if |a| == 1 {
      assert a[1..] + b == b;
    } else {
      HighSplit(a[1..], b);
    }
  }

  /** The incremental update continues the direct computation. */
  lemma UpdatedIsDirect(s: Slot, ts: seq<Trade>, x: Trade)
    requires ts != [] && ts[|ts| - 1].createdAt <= x.createdAt
    ensures UpdatedCandle(Ohlcv(s, ts), x) == Ohlcv(s, ts + [x])
  {
    HighSplit(ts, [x]);
    SumsSplit(ts, [x]);
  }

  lemma {:induction false} UpdateAllAt(table: map<Slot, Candle>, x: Trade, durations: seq<int>, s: Slot)
    requires forall d :: d in durations ==> d > 0
    requires forall i, j :: 0 <= i < j < |durations| ==> durations[i] != durations[j]
    ensures Find(UpdateAll(table, x, durations), s) ==
            if s.duration in durations && s.open == Truncate(x.createdAt, s.duration)
            then Some(if s in table then UpdatedCandle(table[s], x) else FirstCandle(x, s))
            else Find(table, s)
    decreases |durations|
  {
    if durations != [] {
      var d, rest := durations[0], durations[1..];
      assert durations == [d] + rest && d in durations;
      assert forall e :: e in rest ==> e in durations;
      assert d !in rest;
      UpdateAllAt(UpdateCandle(table, x, d), x, rest, s);
    }
  }

  lemma DurationsOk()
    ensures forall d :: d in DURATIONS ==> d > 0
    ensures forall i, j :: 0 <= i < j < |DURATIONS| ==> DURATIONS[i] != DURATIONS[j]
  {
  }

  /** A time falls into the slot it is truncated to, and into no other. */
  lemma TruncateIff(t: int, s: Slot)
    requires s.duration > 0 && s.open % s.duration == 0
    ensures s.open == Truncate(t, s.duration) <==> s.open <= t < s.open + s.duration
  {
    var d := s.duration;
    var q, r := t / d, t % d;
    var k := s.open / d;
    assert t == q * d + r && s.open == k * d;
    if s.open <= t < s.open + d {
      OneMultiple(d, q - k, r);
    }
  }

  lemma OneMultiple(d: int, n: int, r: int)
    requires 0 <= r < d && 0 <= n * d + r < d
    ensures n == 0
  {
    assert n >= 1 ==> n * d >= d;
    assert n <= -1 ==> n * d <= -d;
  }

  lemma TruncateAligns(t: int, d: int)
    requires d > 0
    ensures Truncate(t, d) % d == 0
  {
    assert t == t / d * d + t % d;
    MultipleAligns(t / d, d);
  }

  lemma MultipleAligns(k: int, d: int)
    requires d > 0
    ensures k * d % d == 0
  {
    var q, r := k * d / d, k * d % d;
    assert k * d == q * d + r;
    assert (k - q) * d == r;
    OneMultiple(d, k - q, 0);
  }

  /** One more trade keeps the table exact. */
  lemma UpdateStaysExact(table: map<Slot, Candle>, log: seq<Trade>, x: Trade)
    requires Exact(table, log) && InTime(log + [x])
    ensures Exact(UpdateAll(table, x, DURATIONS), log + [x])
  {
    DurationsOk();
    forall s ensures Find(UpdateAll(table, x, DURATIONS), s) == Direct(log + [x], s) {
      assert Find(table, s) == Direct(log, s);
      UpdateAllAt(table, x, DURATIONS, s);
      if s.duration in DURATIONS {
        TruncateAligns(x.createdAt, s.duration);
        if s.open % s.duration == 0 {
          TruncateIff(x.createdAt, s);
          SlotGrows(log, x, s);
        }
      }
    }
  }

  lemma SlotGrows(log: seq<Trade>, x: Trade, s: Slot)
    requires IsSlot(s) && InTime(log + [x])
    ensures Direct(log + [x], s) ==
            if !(s.open <= x.createdAt < s.open + s.duration) then Direct(log, s)
            else if Direct(log, s).None? then Some(FirstCandle(x, s))
            else Some(UpdatedCandle(Direct(log, s).value, x))
  {
    var ts := TradesIn(log, s);
    WindowSplit(log, [x], s.open, s.open + s.duration);
    assert Window([x], s.open, s.open + s.duration) == if s.open <= x.createdAt < s.open + s.duration then [x] else [];
    if s.open <= x.createdAt < s.open + s.duration {
      if ts == [] {
        assert TradesIn(log + [x], s) == [x];
        FirstIsDirect(s, x);
      } else {
        WindowMembers(log, s.open, s.open + s.duration);
        LastInTime(log, x, ts[|ts| - 1]);
        UpdatedIsDirect(s, ts, x);
      }
    } else {
      assert TradesIn(log + [x], s) == ts;
    }
  }

  lemma FirstIsDirect(s: Slot, x: Trade)
    ensures Ohlcv(s, [x]) == FirstCandle(x, s)
  {
    assert x in [x] && [x][1..] == [];
    assert SumBase([x]) == x.quantity + SumBase([]) && SumQuote([x]) == x.quoteQuantity + SumQuote([]);
  }

  lemma LastInTime(log: seq<Trade>, x: Trade, y: Trade)
    requires InTime(log + [x]) && y in log
    ensures y.createdAt <= x.createdAt
  {
    var i :| 0 <= i < |log| && log[i] == y;
    assert (log + [x])[i] == y && (log + [x])[|log|] == x;
  }

  /** The projection is a fold: however the log is cut into batches, the candles are those computed from the whole
      log. */
  lemma {:induction false} ProjectStaysExact(table: map<Slot, Candle>, log: seq<Trade>, batch: seq<Trade>)
    requires Exact(table, log) && InTime(log + batch)
    ensures Exact(Project(table, batch), log + batch)
    decreases |batch|
  {
    if batch == [] {
      assert log + batch == log;
    } else {
      var x, rest := batch[0], batch[1..];
      assert log + batch == (log + [x]) + rest;
      assert (log + batch)[..|log| + 1] == log + [x];
      UpdateStaysExact(table, log, x);
      ProjectStaysExact(UpdateAll(table, x, DURATIONS), log + [x], rest);
    }
  }

  /** The k-th partial sums of a list of trades. */
  ghost predicate SumsUp(ts: seq<Trade>, base: seq<int>, quote: seq<int>) {
    && |base| == |quote| == |ts| + 1 && base[0] == 0 && quote[0] == 0
    && forall k :: 0 <= k < |ts| ==>
         base[k + 1] == base[k] + ts[k].quantity && quote[k + 1] == quote[k] + ts[k].quoteQuantity
  }

  lemma {:induction false} SumsAre(ts: seq<Trade>, base: seq<int>, quote: seq<int>)
    requires SumsUp(ts, base, quote)
    ensures SumBase(ts) == base[|ts|] && SumQuote(ts) == quote[|ts|]
    decreases |ts|
  {
    if ts != [] {
      var n := |ts| - 1;
      SumsAre(ts[..n], base[..n + 1], quote[..n + 1]);
      assert ts == ts[..n] + [ts[n]];
      SumsSplit(ts[..n], [ts[n]]);
      assert SumBase([ts[n]]) == ts[n].quantity + SumBase([]) &&
          SumQuote([ts[n]]) == ts[n].quoteQuantity + SumQuote([]);
    }
  }

  /** What an exact table tells of an interval: nothing if no trade fell into it; else the price of its first and last
      trade, the bounds of all its prices, its volumes and its number of trades. */
  ghost predicate Tells(c: Candle, s: Slot, ts: seq<Trade>, base: seq<int>, quote: seq<int>) {
    && |base| == |quote| == |ts| + 1
    && c.openTime == s.open && c.closeTime == s.open + s.duration
    && ts != [] && c.open == ts[0].price && c.close == ts[|ts| - 1].price && c.lastTradeAt == ts[|ts| - 1].createdAt
    && (forall x :: x in ts ==> c.low <= x.price <= c.high)
    && (exists x :: x in ts && x.price == c.high) && (exists x :: x in ts && x.price == c.low)
    && c.volumeBase == base[|ts|] && c.volumeQuote == quote[|ts|] && c.count == |ts|
  }

  /** The supported intervals, in seconds. */
  predicate Supported(duration: int) {
    duration % 1_000_000_000 == 0 && duration / 1_000_000_000 in [60, 300, 900, 3600, 14400, 86400]
  }

  lemma SlotIff(s: Slot)
    ensures IsSlot(s) <==> Supported(s.duration) && s.open % s.duration == 0
  {
    var seconds := [60, 300, 900, 3600, 14400, 86400];
    assert forall i :: 0 <= i < 6 ==> DURATIONS[i] == seconds[i] * 1_000_000_000;
    if s.duration in DURATIONS {
      var i :| 0 <= i < 6 && DURATIONS[i] == s.duration;
      assert seconds[i] in seconds;
    }
    if Supported(s.duration) {
      var i :| 0 <= i < 6 && seconds[i] == s.duration / 1_000_000_000;
      assert DURATIONS[i] in DURATIONS;
    }
  }

  /** The direct candle of an interval tells of its trades. */
  lemma OhlcvTells(s: Slot, ts: seq<Trade>, base: seq<int>, quote: seq<int>)
    requires ts != [] && SumsUp(ts, base, quote)
    ensures Tells(Ohlcv(s, ts), s, ts, base, quote)
  {
    SumsAre(ts, base, quote);
    HighAndLow(ts);
  }

  lemma WindowSome(log: seq<Trade>, from: int, to: int)
    ensures Window(log, from, to) != [] <==> exists x :: x in log && from <= x.createdAt < to
  {
    WindowMembers(log, from, to);
    if Window(log, from, to) != [] {
      assert Window(log, from, to)[0] in Window(log, from, to);
    }
  }

  lemma ExactTells(table: map<Slot, Candle>, log: seq<Trade>, s: Slot, ts: seq<Trade>, base: seq<int>, quote: seq<int>)
    requires Exact(table, log) && ts == Window(log, s.open, s.open + s.duration) && SumsUp(ts, base, quote)
    ensures s in table <==>
              && Supported(s.duration) && s.open % s.duration == 0
              && exists x :: x in log && s.open <= x.createdAt < s.open + s.duration
    ensures s in table ==> Tells(table[s], s, ts, base, quote)
  {
    SlotIff(s);
    WindowSome(log, s.open, s.open + s.duration);
    assert Find(table, s) == Direct(log, s);
    if ts != [] {
      OhlcvTells(s, ts, base, quote);
    }
  }

  lemma EmptyIsExact()
    ensures Exact(map[], [])
  {
  }

  // ---- Nested intervals ----

  /** Two candles of adjoining windows, the earlier first. */
  function Merge(a: Candle, b: Candle): Candle {
    Candle(a.openTime, b.closeTime, a.open,
           if b.high > a.high then b.high else a.high, if b.low < a.low then b.low else a.low,
           b.close, a.volumeBase + b.volumeBase, a.volumeQuote + b.volumeQuote, a.count + b.count, b.lastTradeAt)
  }

  /** Merging where either window may be empty. */
  function Join(s: Slot, a: Option<Candle>, b: Option<Candle>): Option<Candle> {
    if a.Some? && b.Some? then Some(Framed(s, Merge(a.value, b.value)))
    else if a.Some? then Some(Framed(s, a.value))
    else if b.Some? then Some(Framed(s, b.value))
    else None
  }

  function Framed(s: Slot, c: Candle): Candle {
    c.(openTime := s.open, closeTime := s.open + s.duration)
  }

  /** The stored candles of length `d` in the first `n` slots from `open` on, combined. */
  function Combined(table: map<Slot, Candle>, d: int, open: int, n: nat): Option<Candle> {
    if n == 0 then None
    else Join(Slot(n * d, open), Combined(table, d, open, n - 1), Find(table, Slot(d, open + (n - 1) * d)))
  }

  lemma {:induction false} WindowEmpty(log: seq<Trade>, from: int, to: int)
    requires forall x :: x in log ==> !(from <= x.createdAt < to)
    ensures Window(log, from, to) == []
  {
    if log != [] {
      assert log[0] in log && forall x :: x in log[1..] ==> x in log;
      WindowEmpty(log[1..], from, to);
    }
  }

  lemma {:induction false} WindowJoins(log: seq<Trade>, from: int, mid: int, to: int)
    requires InTime(log) && from <= mid <= to
    ensures Window(log, from, to) == Window(log, from, mid) + Window(log, mid, to)
  {
    if log != [] {
      assert InTime(log[1..]);
      WindowJoins(log[1..], from, mid, to);
      if mid <= log[0].createdAt < to {
        forall x | x in log[1..] ensures x.createdAt >= mid {
          var i :| 0 <= i < |log[1..]| && log[1..][i] == x;
          assert log[0].createdAt <= log[i + 1].createdAt;
        }
        WindowEmpty(log[1..], from, mid);
      }
    }
  }

  function Whole(log: seq<Trade>, s: Slot): Option<Candle> {
    if TradesIn(log, s) == [] then None else Some(Ohlcv(s, TradesIn(log, s)))
  }

  lemma OhlcvJoins(s: Slot, a: Slot, b: Slot, ts: seq<Trade>, us: seq<Trade>)
    requires ts != [] && us != []
    ensures Ohlcv(s, ts + us) == Framed(s, Merge(Ohlcv(a, ts), Ohlcv(b, us)))
  {
    HighSplit(ts, us);
    SumsSplit(ts, us);
    var all := ts + us;
    assert all[0] == ts[0] && all[|all| - 1] == us[|us| - 1] && |all| == |ts| + |us|;
  }

  /** Joining the candles of two adjoining windows gives the candle of both. */
  lemma WholeJoins(log: seq<Trade>, s: Slot, a: Slot, b: Slot)
    requires InTime(log) && s.open == a.open && b.open == a.open + a.duration && s.duration == a.duration + b.duration
    requires a.duration >= 0 && b.duration >= 0
    ensures Whole(log, s) == Join(s, Whole(log, a), Whole(log, b))
  {
    var ts, us := TradesIn(log, a), TradesIn(log, b);
    WindowJoins(log, s.open, b.open, s.open + s.duration);
    assert TradesIn(log, s) == ts + us;
    if ts == [] {
      assert ts + us == us;
    } else if us == [] {
      assert ts + us == ts;
    } else {
      OhlcvJoins(s, a, b, ts, us);
    }
  }

  lemma {:induction false} CombinedIsWhole(table: map<Slot, Candle>, log: seq<Trade>, d: int, open: int, n: nat)
    requires Exact(table, log) && InTime(log) && d in DURATIONS && d > 0 && open % d == 0
    ensures Combined(table, d, open, n) == Whole(log, Slot(n * d, open))
    decreases n
  {
    if n == 0 {
      assert n * d == 0;
      WindowEmpty(log, open, open);
    } else {
      var last := Slot(d, open + (n - 1) * d);
      SpanStep(n, d);
      CombinedIsWhole(table, log, d, open, n - 1);
      StepAligns(open, n - 1, d);
      assert Find(table, last) == Direct(log, last);
      WholeJoins(log, Slot(n * d, open), Slot((n - 1) * d, open), last);
    }
  }

  lemma SpanStep(n: nat, d: int)
    requires n > 0 && d > 0
    ensures n * d == (n - 1) * d + d && (n - 1) * d >= 0
  {
  }

  lemma StepAligns(open: int, i: int, d: int)
    requires d > 0 && open % d == 0
    ensures (open + i * d) % d == 0
  {
    var k := open / d;
    assert open == k * d;
    assert open + i * d == (k + i) * d;
    MultipleAligns(k + i, d);
  }

  /** Every coarser candle is the combination of the finer candles nested in it. */
  lemma CoarserIsCombined(table: map<Slot, Candle>, log: seq<Trade>, s: Slot, d: int, n: nat)
    requires Exact(table, log) && InTime(log) && IsSlot(s)
    requires d in DURATIONS && d > 0 && s.duration == n * d
    ensures Find(table, s) == Combined(table, d, s.open, n)
  {
    Nested(s.open, n, d);
    CombinedIsWhole(table, log, d, s.open, n);
    assert Find(table, s) == Direct(log, s);
  }

  lemma Nested(open: int, n: nat, d: int)
    requires d > 0 && n * d > 0 && open % (n * d) == 0
    ensures open % d == 0
  {
    var k := open / (n * d);
    assert open == k * (n * d);
    assert open == (k * n) * d;
    MultipleAligns(k * n, d);
  }

  /** All supported intervals nest: each divides every longer one. */
  lemma IntervalsNest(i: nat, j: nat)
    requires i <= j < |DURATIONS|
    ensures DURATIONS[j] % DURATIONS[i] == 0
  {
  }
}
