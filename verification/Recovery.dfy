/** Crash recovery of the resident runtime, on values: the durable tables, the live book,
    and what a restart rebuilds (internal/app/matcher/resident_runtime.go). */
module Recovery {
  import opened Orders
  import opened Engine
  import opened BookSpec
  import opened Sweeping
  import opened BookRuns
  import opened Snapshots

  /** The least quantity the active-order projection keeps: 0.000000005. */
  const MIN_ACTIVE_QUANTITY: int := 5_000_000_000

  /** One row of the match event log. */
  datatype MatchEvent = MatchEvent(sequence: nat, result: MatchResult)

  // ---- The event log ----

  ghost predicate LogOk(events: seq<MatchEvent>) {
    && (forall e :: e in events ==> e.sequence > 0)
    && forall i, j :: 0 <= i < j < |events| ==> events[i].sequence < events[j].sequence
  }

  function EventsAfter(events: seq<MatchEvent>, after: nat): seq<MatchEvent> {
    if events == [] then []
    else if events[0].sequence > after then [events[0]] + EventsAfter(events[1..], after)
    else EventsAfter(events[1..], after)
  }

  function LatestSequence(events: seq<MatchEvent>): nat {
    if events == [] then 0 else events[|events| - 1].sequence
  }

  /** The sequence a replay of the events after `after` ends at. */
  function ReplayedTo(events: seq<MatchEvent>, after: nat): nat {
    var tail := EventsAfter(events, after);
    if tail == [] then after else tail[|tail| - 1].sequence
  }

  lemma {:induction false} EventsAfterSplit(a: seq<MatchEvent>, b: seq<MatchEvent>, after: nat)
    ensures EventsAfter(a + b, after) == EventsAfter(a, after) + EventsAfter(b, after)
  {
    if a == [] {
      assert a + b == b;
    } else {
      assert (a + b)[1..] == a[1..] + b;
      EventsAfterSplit(a[1..], b, after);
    }
  }

  lemma {:induction false} AllAfter(events: seq<MatchEvent>, after: nat)
    requires forall e :: e in events ==> e.sequence > after
    ensures EventsAfter(events, after) == events
  {
    if events != [] {
      assert events[0] in events;
      AllAfter(events[1..], after);
    }
  }

  lemma {:induction false} NoneAfter(events: seq<MatchEvent>, after: nat)
    requires forall e :: e in events ==> e.sequence <= after
    ensures EventsAfter(events, after) == []
  {
    if events != [] {
      assert events[0] in events;
      NoneAfter(events[1..], after);
    }
  }

  lemma LatestIsLast(events: seq<MatchEvent>)
    requires LogOk(events)
    ensures forall e :: e in events ==> e.sequence <= LatestSequence(events)
  {
  }

  // ---- Replay ----

  ghost function ReplayEvents(c: Config, v: View, events: seq<MatchEvent>): Inserted
    decreases |events|
  {
    if events == [] then Inserted(v, None)
    else
      var first := ReplaySpec(c, v, events[0].result);
      if first.error.Some? then first else ReplayEvents(c, first.view, events[1..])
  }

  lemma {:induction false} ReplaySplit(c: Config, v: View, a: seq<MatchEvent>, b: seq<MatchEvent>)
    requires ReplayEvents(c, v, a).error.None?
    ensures ReplayEvents(c, v, a + b) == ReplayEvents(c, ReplayEvents(c, v, a).view, b)
    decreases |a|
  {
    if a == [] {
      assert a + b == b;
    } else {
      assert (a + b)[1..] == a[1..] + b;
      ReplaySplit(c, ReplaySpec(c, v, a[0].result).view, a[1..], b);
    }
  }

  // ---- Live runs ----

  /** One attempt at a new-order command; `persists` says whether its transaction commits. */
  datatype Attempt = Attempt(taker: Order, ids: TradeIds, now: int, sequence: nat, persists: bool)

  /** The result an attempt leaves in the log, if its matching succeeds and its transaction commits. */
  ghost function Committed(c: Config, v: View, a: Attempt): Option<MatchResult> {
    match ApplySpec(c, v, a.taker, a.ids, a.now).outcome
    case Done(r) => if a.persists then Some(r) else None
    case Failed(_) => None
  }

  /** A failed or unpersisted attempt is rolled back; a committed one keeps the book it matched. */
  ghost function LiveStep(c: Config, v: View, a: Attempt): View {
    if Committed(c, v, a).Some? then ApplySpec(c, v, a.taker, a.ids, a.now).view else v
  }

  ghost function LiveRun(c: Config, v: View, attempts: seq<Attempt>): View
    decreases |attempts|
  {
    if attempts == [] then v else LiveRun(c, LiveStep(c, v, attempts[0]), attempts[1..])
  }

  /** The sequence the runtime has reached: that of the last attempt that committed, `from` before the first. */
  ghost function LiveSequence(c: Config, v: View, from: nat, attempts: seq<Attempt>): nat
    decreases |attempts|
  {
    if attempts == [] then from
    else
      var a := attempts[0];
      LiveSequence(c, LiveStep(c, v, a), if Committed(c, v, a).Some? then a.sequence else from, attempts[1..])
  }

  /** What a run appends to the match event log. */
  ghost function RunLog(c: Config, v: View, attempts: seq<Attempt>): seq<MatchEvent>
    decreases |attempts|
  {
    if attempts == [] then []
    else
      var rest := RunLog(c, LiveStep(c, v, attempts[0]), attempts[1..]);
      match Committed(c, v, attempts[0])
      case Some(r) => [MatchEvent(attempts[0].sequence, r)] + rest
      case None => rest
  }

  /** Commands are worked off in the order of their sequence ids, beyond `after`. */
  ghost predicate InOrder(attempts: seq<Attempt>, after: nat) {
    && (forall i :: 0 <= i < |attempts| ==> attempts[i].sequence > after)
    && forall i, j :: 0 <= i < j < |attempts| ==> attempts[i].sequence < attempts[j].sequence
  }

  ghost predicate AllTicketed(issued: map<string, nat>, attempts: seq<Attempt>) {
    forall a :: a in attempts ==> Ticketed(issued, a.taker)
  }

  /** Replaying what a run logged from where it started gives the book where it ended. */
  lemma {:induction false} RunIsItsLog(c: Config, issued: map<string, nat>, v: View, attempts: seq<Attempt>)
    requires WF(c, issued, v) && AllTicketed(issued, attempts)
    ensures WF(c, issued, LiveRun(c, v, attempts))
    ensures ReplayEvents(c, v, RunLog(c, v, attempts)) == Inserted(LiveRun(c, v, attempts), None)
    decreases |attempts|
  {
    if attempts != [] {
      var a := attempts[0];
      assert a in attempts && forall x :: x in attempts[1..] ==> x in attempts;
      ApplyEffect(c, issued, v, a.taker, a.ids, a.now);
      RunIsItsLog(c, issued, LiveStep(c, v, a), attempts[1..]);
      if Committed(c, v, a).Some? {
        ReplayIsApply(c, issued, v, a.taker, a.ids, a.now);
        assert RunLog(c, v, attempts)[1..] == RunLog(c, LiveStep(c, v, a), attempts[1..]);
      }
    }
  }

  /** A run logs events of its own commands only, in their order. */
  lemma {:induction false} RunLogInOrder(c: Config, v: View, attempts: seq<Attempt>, after: nat)
    requires InOrder(attempts, after)
    ensures var log := RunLog(c, v, attempts);
            && LogOk(log)
            && forall e :: e in log ==> e.sequence > after && exists a :: a in attempts && a.sequence == e.sequence
    decreases |attempts|
  {
    if attempts != [] {
      var rest := RunLog(c, LiveStep(c, v, attempts[0]), attempts[1..]);
      assert InOrder(attempts[1..], attempts[0].sequence);
      RunLogInOrder(c, LiveStep(c, v, attempts[0]), attempts[1..], attempts[0].sequence);
      assert attempts[0] in attempts && forall x :: x in attempts[1..] ==> x in attempts;
      assert forall i :: 0 <= i < |rest| ==> rest[i] in rest;
    }
  }

  lemma {:induction false} LiveRunSplit(c: Config, v: View, a: seq<Attempt>, b: seq<Attempt>)
    ensures LiveRun(c, v, a + b) == LiveRun(c, LiveRun(c, v, a), b)
    decreases |a|
  {
    if a == [] {
      assert a + b == b;
    } else {
      var next := LiveStep(c, v, a[0]);
      assert (a + b)[0] == a[0] && (a + b)[1..] == a[1..] + b;
      LiveRunSplit(c, next, a[1..], b);
    }
  }

  lemma Glued<T>(whole: seq<T>, front: seq<T>, step: seq<T>, a: seq<T>, b: seq<T>)
    requires whole == step + (a + b) && front == step + a
    ensures whole == front + b
  {
  }

  /** What one attempt logs. */
  ghost function StepLog(c: Config, v: View, a: Attempt): seq<MatchEvent> {
    if Committed(c, v, a).Some? then [MatchEvent(a.sequence, Committed(c, v, a).value)] else []
  }

  lemma RunLogFront(c: Config, v: View, attempts: seq<Attempt>)
    requires attempts != []
    ensures RunLog(c, v, attempts) == StepLog(c, v, attempts[0]) + RunLog(c, LiveStep(c, v, attempts[0]), attempts[1..])
  {
  }

  lemma {:induction false} RunLogSplit(c: Config, v: View, a: seq<Attempt>, b: seq<Attempt>)
    ensures RunLog(c, v, a + b) == RunLog(c, v, a) + RunLog(c, LiveRun(c, v, a), b)
    decreases |a|
  {
    if a == [] {
      assert a + b == b;
    } else {
      var next := LiveStep(c, v, a[0]);
      assert (a + b)[0] == a[0] && (a + b)[1..] == a[1..] + b;
      RunLogFront(c, v, a + b);
      RunLogFront(c, v, a);
      RunLogSplit(c, next, a[1..], b);
      var tail, rest := RunLog(c, next, a[1..]), RunLog(c, LiveRun(c, next, a[1..]), b);
      assert LiveRun(c, v, a) == LiveRun(c, next, a[1..]);
      Glued(RunLog(c, v, a + b), RunLog(c, v, a), StepLog(c, v, a[0]), tail, rest);
    }
  }

  lemma {:induction false} LiveSequenceSplit(c: Config, v: View, from: nat, a: seq<Attempt>, b: seq<Attempt>)
    ensures LiveSequence(c, v, from, a + b) == LiveSequence(c, LiveRun(c, v, a), LiveSequence(c, v, from, a), b)
    decreases |a|
  {
    if a == [] {
      assert a + b == b;
    } else {
      assert (a + b)[0] == a[0] && (a + b)[1..] == a[1..] + b;
      var next := if Committed(c, v, a[0]).Some? then a[0].sequence else from;
      LiveSequenceSplit(c, LiveStep(c, v, a[0]), next, a[1..], b);
    }
  }

  /** The last event a run logs carries the sequence the runtime has reached. */
  lemma {:induction false} LogReachesLive(c: Config, v: View, from: nat, attempts: seq<Attempt>)
    ensures var log := RunLog(c, v, attempts);
            LiveSequence(c, v, from, attempts) == if log == [] then from else log[|log| - 1].sequence
    decreases |attempts|
  {
    if attempts != [] {
      var a := attempts[0];
      LogReachesLive(c, LiveStep(c, v, a), if Committed(c, v, a).Some? then a.sequence else from, attempts[1..]);
    }
  }

  /** The events logged after a cut are those of the later commands. `n` is where the snapshot of the cut stands. */
  lemma LogAfterCut(c: Config, v: View, before: seq<Attempt>, later: seq<Attempt>, n: nat)
    requires InOrder(before + later, 0) && LiveSequence(c, v, 0, before) <= n <= LastOf(before)
    ensures EventsAfter(RunLog(c, v, before + later), n) == RunLog(c, LiveRun(c, v, before), later)
  {
    var a, b := RunLog(c, v, before), RunLog(c, LiveRun(c, v, before), later);
    CutOrder(before, later);
    RunLogSplit(c, v, before, later);
    RunLogInOrder(c, v, before, 0);
    RunLogInOrder(c, LiveRun(c, v, before), later, LastOf(before));
    LogReachesLive(c, v, 0, before);
    LatestIsLast(a);
    NoneAfter(a, n);
    AllAfter(b, n);
    EventsAfterSplit(a, b, n);
  }

  function LastOf(attempts: seq<Attempt>): nat {
    if attempts == [] then 0 else attempts[|attempts| - 1].sequence
  }

  /** Recovery equals live execution: wherever an in-order run is cut and the book captured there, restoring that
      snapshot and replaying the later events of the log gives exactly the book and the last sequence the run ends with.
      The snapshot stands at the sequence reached at the cut, or later up to the last attempt before it. */
  lemma RecoveryEqualsLive(c: Config, issued: map<string, nat>, v: View, before: seq<Attempt>, later: seq<Attempt>,
                           n: nat, now: int)
    requires WF(c, issued, v) && AllTicketed(issued, before + later) && InOrder(before + later, 0)
    requires LiveSequence(c, v, 0, before) <= n <= LastOf(before)
    ensures var restored := RestoreSpec(CaptureSpec(c, LiveRun(c, v, before), n, now));
            var log := RunLog(c, v, before + later);
            && restored.Done?
            && ReplayEvents(c, restored.value, EventsAfter(log, n)) == Inserted(LiveRun(c, v, before + later), None)
            && ReplayedTo(log, n) == LiveSequence(c, LiveRun(c, v, before), n, later)
            && (n == LiveSequence(c, v, 0, before) ==> ReplayedTo(log, n) == LiveSequence(c, v, 0, before + later))
  {
    assert forall a :: a in before || a in later ==> a in before + later;
    var cut := LiveRun(c, v, before);
    RunIsItsLog(c, issued, v, before);
    RunIsItsLog(c, issued, cut, later);
    RestoreUndoesCapture(c, issued, cut, n, now);
    LiveRunSplit(c, v, before, later);
    LogAfterCut(c, v, before, later, n);
    LogReachesLive(c, cut, n, later);
    LiveSequenceSplit(c, v, 0, before, later);
  }

  lemma CutOrder(before: seq<Attempt>, later: seq<Attempt>)
    requires InOrder(before + later, 0)
    ensures InOrder(before, 0) && InOrder(later, LastOf(before))
    ensures forall a :: a in before ==> a.sequence <= LastOf(before)
  {
    var all := before + later;
    assert forall i :: 0 <= i < |before| ==> all[i] == before[i];
    assert forall i :: 0 <= i < |later| ==> all[|before| + i] == later[i];
  }
}
