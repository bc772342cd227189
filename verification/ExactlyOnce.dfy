/** The command-log protocol: workers that look, match, persist, complete and apply, any of which may crash
    (internal/app/matcher/service.go, PersistBookMatchResult and AppendMatchEventLog).

    A transaction is one step. Claiming is a free choice, so two workers may hold the same command. A worker runs in
    one of two modes: the resident runtime and the book matcher log a match event, `MatchOrder` does not.
 */
module ExactlyOnce {
  import opened Orders

  /** A command's place in its market; the log keeps an event for positive sequences only. */
  datatype Key = Key(market: string, sequence: nat)

  datatype Command = Command(id: string, key: Key, orderId: string)

  /** A match result on its way into the log: the taker's final status and the ids of its trades. */
  datatype Payload = Payload(orderId: string, status: Status, trades: set<nat>)

  /** Where a worker is with its command. */
  datatype Pc =
    | Idle
    | Looked(command: Command)
    | Matched(command: Command, payload: Payload)
    | Settled(command: Command)
    | Completed(command: Command)

  /** A transaction that produced trades, and whether it logged its event. */
  datatype Production = Production(command: Command, logged: bool)

  /** The durable tables, the workers, and three histories: the transactions that produced trades, the commands that
      committed without an event, and the worker that drew each trade id. */
  datatype Sys = Sys(
    status: map<string, Status>,
    events: map<Key, Payload>,
    trades: map<nat, Production>,
    produced: seq<Production>,
    unlogged: set<Command>,
    applied: set<Command>,
    nextTrade: nat,
    drawnBy: map<nat, nat>,
    workers: map<nat, Pc>)

  predicate Matchable(s: Status) {
    s.PendingMatch? || s.Open? || s.PartiallyFilled?
  }

  predicate StillMatchable(s: Sys, orderId: string) {
    orderId in s.status && Matchable(s.status[orderId])
  }

  function PcOf(s: Sys, w: nat): Pc {
    if w in s.workers then s.workers[w] else Idle
  }

  /** A step of the system; `fills` and `final` are what matching comes up with, `settles` the ledger's verdict,
      `logs` the mode of the transaction. `MatchOrder` reads, matches and writes in one transaction: a `Match`
      directly followed by a `Persist` that does not log. */
  datatype Step =
    | Look(worker: nat, command: Command)
    | Match(worker: nat, fills: nat, final: Status)
    | Persist(worker: nat, settles: bool, logs: bool)
    | Complete(worker: nat)
    | Apply(worker: nat)
    | Crash(worker: nat)
    | CancelOrder(orderId: string)

  function At(s: Sys, w: nat, pc: Pc): Sys {
    s.(workers := s.workers[w := pc])
  }

  /** The next trade ids nobody has drawn. */
  function Fresh(from: nat, fills: nat): (ids: set<nat>)
    ensures forall t :: t in ids <==> from <= t < from + fills
  {
    if fills == 0 then {} else Fresh(from, fills - 1) + {from + fills - 1}
  }

  /** An event is logged in a mode that logs, under a positive sequence. */
  predicate Logs(c: Command, logs: bool) {
    logs && c.key.sequence > 0
  }

  /** The transaction aborts on a settlement error, on a trade id that exists, and on another payload under its key. */
  predicate Commits(s: Sys, c: Command, p: Payload, settles: bool, logs: bool) {
    && settles
    && (forall t :: t in p.trades ==> t !in s.trades)
    && (Logs(c, logs) && c.key in s.events ==> s.events[c.key] == p)
  }

  function Write(s: Sys, c: Command, p: Payload, logs: bool): Sys {
    var made := Production(c, Logs(c, logs));
    s.(status := s.status[p.orderId := p.status],
       events := if made.logged then s.events[c.key := p] else s.events,
       unlogged := if made.logged then s.unlogged else s.unlogged + {c},
       trades := s.trades + (map t | t in p.trades :: made),
       produced := if p.trades == {} then s.produced else s.produced + [made])
  }

  function Next(s: Sys, step: Step): Sys {
    match step
    case Look(w, c) =>
      if !PcOf(s, w).Idle? then s
      else if c.key.sequence > 0 && c.key in s.events then At(s, w, Settled(c))
      else At(s, w, Looked(c))
    case Match(w, fills, final) =>
      (match PcOf(s, w)
       case Looked(c) =>
         if c.orderId !in s.status then At(s, w, Idle)
         else if !StillMatchable(s, c.orderId) then At(s, w, Settled(c))
         else At(s, w, Matched(c, Payload(c.orderId, final, Fresh(s.nextTrade, fills)))).(
           nextTrade := s.nextTrade + fills,
           drawnBy := s.drawnBy + (map t | t in Fresh(s.nextTrade, fills) :: w))
       case _ => s)
    case Persist(w, settles, logs) =>
      (match PcOf(s, w)
       case Matched(c, p) =>
         if p.orderId !in s.status then At(s, w, Idle)
         else if !StillMatchable(s, p.orderId) then At(s, w, Settled(c))
         else if !Commits(s, c, p, settles, logs) then At(s, w, Idle)
         else At(Write(s, c, p, logs), w, Settled(c))
       case _ => s)
    case Complete(w) =>
      (match PcOf(s, w) case Settled(c) => At(s, w, Completed(c)) case _ => s)
    case Apply(w) =>
      (match PcOf(s, w) case Completed(c) => At(s, w, Idle).(applied := s.applied + {c}) case _ => s)
    case Crash(w) => At(s, w, Idle)
    case CancelOrder(o) => if StillMatchable(s, o) then s.(status := s.status[o := Canceled]) else s
  }

  function Run(s: Sys, steps: seq<Step>): Sys
    decreases |steps|
  {
    if steps == [] then s else Run(Next(s, steps[0]), steps[1..])
  }

  function Init(status: map<string, Status>): Sys {
    Sys(status, map[], map[], [], {}, {}, 0, map[], map[])
  }

  // ---- The invariant ----

  /** The trades of logged transactions are exactly what the log says, each under one key. */
  ghost predicate TradesLogged(s: Sys) {
    && (forall t :: t in s.trades && s.trades[t].logged ==> InLog(s, s.trades[t].command.key, t))
    && (forall k, t :: k in s.events && t in s.events[k].trades ==>
          t in s.trades && s.trades[t].logged && s.trades[t].command.key == k)
  }

  predicate InLog(s: Sys, k: Key, t: nat) {
    k in s.events && t in s.events[k].trades
  }

  /** A logged producing transaction left its key in the log, and no key twice in the history. */
  ghost predicate ProducedOnce(s: Sys) {
    && (forall i :: 0 <= i < |s.produced| && s.produced[i].logged ==> HasTrades(s, s.produced[i].command.key))
    && LoggedOnce(s)
  }

  predicate HasTrades(s: Sys, k: Key) {
    k in s.events && s.events[k].trades != {}
  }

  ghost predicate LoggedOnce(s: Sys) {
    forall i, j :: 0 <= i < j < |s.produced| && s.produced[i].logged && s.produced[j].logged ==>
      s.produced[i].command.key != s.produced[j].command.key
  }

  /** The trade ids a worker has drawn and not yet persisted. */
  function InFlight(s: Sys, w: nat): set<nat> {
    Held(PcOf(s, w))
  }

  /** A trade id drawn by this worker and not stored. */
  predicate Drawn(s: Sys, w: nat, t: nat) {
    t < s.nextTrade && t !in s.trades && t in s.drawnBy && s.drawnBy[t] == w
  }

  /** Trade ids are drawn once: those in flight are held by the worker that drew them and by no table. */
  ghost predicate IdsFresh(s: Sys) {
    && (forall t :: t in s.trades ==> t < s.nextTrade)
    && (forall w: nat, t :: t in InFlight(s, w) ==> Drawn(s, w, t))
  }

  /** A command may be completed once its event is logged, it committed without one, or its order is decided. */
  predicate Decided(s: Sys, c: Command) {
    c.key in s.events || c in s.unlogged || (c.orderId in s.status && !Matchable(s.status[c.orderId]))
  }

  ghost predicate NothingLost(s: Sys) {
    && (forall c :: c in s.applied ==> Decided(s, c))
    && (forall w: nat :: WorkerOk(s, PcOf(s, w)))
  }

  predicate WorkerOk(s: Sys, pc: Pc) {
    && (pc.Settled? || pc.Completed? ==> Decided(s, pc.command))
    && (pc.Matched? ==> pc.payload.orderId == pc.command.orderId)
  }

  ghost predicate Inv(s: Sys) {
    TradesLogged(s) && ProducedOnce(s) && IdsFresh(s) && NothingLost(s)
  }

  lemma InitInv(status: map<string, Status>)
    ensures Inv(Init(status))
  {
  }

  function Held(pc: Pc): set<nat> {
    match pc case Matched(_, p) => p.trades case _ => {}
  }

  lemma AtPc(s: Sys, w: nat, pc: Pc)
    ensures forall x: nat :: PcOf(At(s, w, pc), x) == if x == w then pc else PcOf(s, x)
    ensures forall x: nat :: InFlight(At(s, w, pc), x) == if x == w then Held(pc) else InFlight(s, x)
  {
  }

  lemma SameWorkers(s: Sys, n: Sys)
    requires n.workers == s.workers
    ensures forall x: nat :: PcOf(n, x) == PcOf(s, x)
    ensures forall x: nat :: InFlight(n, x) == InFlight(s, x)
  {
  }

  /** Workers' promises survive when nothing decided becomes undecided and only harmless places are taken. */
  lemma SameDecisions(s: Sys, n: Sys)
    requires NothingLost(s) && forall c :: Decided(s, c) ==> Decided(n, c)
    requires forall c :: c in n.applied ==> c in s.applied || Decided(n, c)
    requires forall x: nat :: PcOf(n, x) == PcOf(s, x) || WorkerOk(n, PcOf(n, x))
    ensures NothingLost(n)
  {
    forall x: nat ensures WorkerOk(n, PcOf(n, x)) {
      assert WorkerOk(s, PcOf(s, x));
    }
  }

  /** Moving a worker to a place that holds no trades touches nothing else. */
  lemma MoveInv(s: Sys, w: nat, pc: Pc)
    requires Inv(s) && !pc.Matched? && (pc.Settled? || pc.Completed? ==> Decided(s, pc.command))
    ensures Inv(At(s, w, pc))
  {
    var n := At(s, w, pc);
    AtPc(s, w, pc);
    assert TradesLogged(n);
    assert ProducedOnce(n);
    assert IdsFresh(n);
    SameDecisions(s, n);
  }

  lemma MatchInv(s: Sys, w: nat, fills: nat, final: Status)
    requires Inv(s)
    ensures Inv(Next(s, Match(w, fills, final)))
  {
    if PcOf(s, w).Looked? {
      var c := PcOf(s, w).command;
      if c.orderId !in s.status {
        MoveInv(s, w, Idle);
      } else if !StillMatchable(s, c.orderId) {
        MoveInv(s, w, Settled(c));
      } else {
        var pc := Matched(c, Payload(c.orderId, final, Fresh(s.nextTrade, fills)));
        var n := Next(s, Match(w, fills, final));
        AtPc(s, w, pc);
        SameWorkers(At(s, w, pc), n);
        assert forall x: nat, t :: x != w && t in InFlight(s, x) ==> Drawn(n, x, t);
        assert IdsFresh(n);
        SameDecisions(s, n);
      }
    }
  }

  /** A commit under a logged key adds no trades: they would have to be the stored ones. */
  lemma CommitAgain(s: Sys, c: Command, p: Payload, settles: bool, logs: bool)
    requires TradesLogged(s) && Commits(s, c, p, settles, logs) && Logs(c, logs) && c.key in s.events
    ensures p.trades == {} && s.events[c.key] == p
  {
    assert forall t :: t in p.trades ==> t in s.trades;
  }

  lemma WriteTrades(s: Sys, c: Command, p: Payload, settles: bool, logs: bool)
    requires TradesLogged(s) && Commits(s, c, p, settles, logs)
    ensures TradesLogged(Write(s, c, p, logs))
  {
    var n := Write(s, c, p, logs);
    if Logs(c, logs) && c.key in s.events {
      CommitAgain(s, c, p, settles, logs);
      assert n.trades == s.trades && n.events == s.events;
    } else {
      forall t | t in n.trades && n.trades[t].logged ensures InLog(n, n.trades[t].command.key, t) {
        assert t !in p.trades ==> t in s.trades && n.trades[t] == s.trades[t] && InLog(s, s.trades[t].command.key, t);
      }
      forall k, t | k in n.events && t in n.events[k].trades
        ensures t in n.trades && n.trades[t].logged && n.trades[t].command.key == k
      {
        assert t in p.trades || (k in s.events && t in s.trades && n.trades[t] == s.trades[t]);
      }
    }
  }

  lemma WriteProduced(s: Sys, c: Command, p: Payload, settles: bool, logs: bool)
    requires TradesLogged(s) && ProducedOnce(s) && Commits(s, c, p, settles, logs)
    ensures ProducedOnce(Write(s, c, p, logs))
  {
    var n := Write(s, c, p, logs);
    if Logs(c, logs) && c.key in s.events {
      CommitAgain(s, c, p, settles, logs);
    }
    forall i | 0 <= i < |n.produced| && n.produced[i].logged ensures HasTrades(n, n.produced[i].command.key) {
      if i < |s.produced| {
        assert HasTrades(s, s.produced[i].command.key);
      }
    }
  }

  lemma WriteInv(s: Sys, w: nat, settles: bool, logs: bool)
    requires Inv(s) && PcOf(s, w).Matched?
    requires var pc := PcOf(s, w);
             StillMatchable(s, pc.payload.orderId) && Commits(s, pc.command, pc.payload, settles, logs)
    ensures Inv(Next(s, Persist(w, settles, logs)))
  {
    var c, p := PcOf(s, w).command, PcOf(s, w).payload;
    var n := Write(s, c, p, logs);
    assert WorkerOk(s, PcOf(s, w));
    WriteTrades(s, c, p, settles, logs);
    WriteProduced(s, c, p, settles, logs);
    AtPc(n, w, Settled(c));
    SameWorkers(s, n);
    assert p.trades == InFlight(s, w);
    forall x: nat, t | x != w && t in InFlight(s, x) ensures Drawn(n, x, t) {
      assert Drawn(s, x, t);
      assert t in p.trades ==> Drawn(s, w, t);
    }
    assert IdsFresh(At(n, w, Settled(c)));
    WrittenDecided(s, c, p, logs);
    SameDecisions(s, At(n, w, Settled(c)));
  }

  /** Nothing decided becomes undecided by a commit for an order that is still matchable. */
  lemma WrittenDecided(s: Sys, c: Command, p: Payload, logs: bool)
    requires StillMatchable(s, p.orderId)
    ensures forall x :: Decided(s, x) ==> Decided(Write(s, c, p, logs), x)
    ensures Decided(Write(s, c, p, logs), c)
  {
  }

  lemma NextInv(s: Sys, step: Step)
    requires Inv(s)
    ensures Inv(Next(s, step))
  {
    match step
    case Look(w, c) =>
      if PcOf(s, w).Idle? {
        MoveInv(s, w, if c.key.sequence > 0 && c.key in s.events then Settled(c) else Looked(c));
      }
    case Match(w, fills, final) => MatchInv(s, w, fills, final);
    case Persist(w, settles, logs) =>
      if PcOf(s, w).Matched? {
        var pc := PcOf(s, w);
        assert WorkerOk(s, PcOf(s, w));
        if pc.payload.orderId !in s.status {
          MoveInv(s, w, Idle);
        } else if !StillMatchable(s, pc.payload.orderId) {
          MoveInv(s, w, Settled(pc.command));
        } else if !Commits(s, pc.command, pc.payload, settles, logs) {
          MoveInv(s, w, Idle);
        } else {
          WriteInv(s, w, settles, logs);
        }
      }
    case Complete(w) =>
      if PcOf(s, w).Settled? {
        assert WorkerOk(s, PcOf(s, w));
        MoveInv(s, w, Completed(PcOf(s, w).command));
      }
    case Apply(w) =>
      if PcOf(s, w).Completed? {
        assert WorkerOk(s, PcOf(s, w));
        MoveInv(s, w, Idle);
        var n := Next(s, step);
        SameWorkers(At(s, w, Idle), n);
        SameDecisions(At(s, w, Idle), n);
      }
    case Crash(w) => MoveInv(s, w, Idle);
    case CancelOrder(o) =>
      var n := Next(s, step);
      SameWorkers(s, n);
      SameDecisions(s, n);
  }

  lemma {:induction false} RunInv(s: Sys, steps: seq<Step>)
    requires Inv(s)
    ensures Inv(Run(s, steps))
    decreases |steps|
  {
    if steps != [] {
      NextInv(s, steps[0]);
      RunInv(Next(s, steps[0]), steps[1..]);
    }
  }

  // ---- What the protocol promises ----

  /** Exactly once: in every interleaving of workers, modes, retries, crashes and cancellations no two transactions that
      produce trades and log their event commit under one key, their trades are what the log says, and no command
      is marked applied before its event is logged, it committed without one, or its order is decided. */
  lemma ProducedAtMostOnce(status: map<string, Status>, steps: seq<Step>)
    ensures var e := Run(Init(status), steps);
            LoggedOnce(e) && TradesLogged(e) && forall c :: c in e.applied ==> Decided(e, c)
  {
    InitInv(status);
    RunInv(Init(status), steps);
  }

  /** A logged event is never rewritten, and a stored trade never moves. */
  lemma NextKeepsLog(s: Sys, step: Step)
    ensures var n := Next(s, step);
            && (forall k :: k in s.events ==> k in n.events && n.events[k] == s.events[k])
            && (forall t :: t in s.trades ==> t in n.trades && n.trades[t] == s.trades[t])
  {
  }

  lemma {:induction false} RunKeepsLog(s: Sys, steps: seq<Step>)
    ensures var e := Run(s, steps);
            && (forall k :: k in s.events ==> k in e.events && e.events[k] == s.events[k])
            && (forall t :: t in s.trades ==> t in e.trades && e.trades[t] == s.trades[t])
    decreases |steps|
  {
    if steps != [] {
      NextKeepsLog(s, steps[0]);
      RunKeepsLog(Next(s, steps[0]), steps[1..]);
    }
  }

  /** What a command leaves behind that went through: the matched status, the trades drawn for it, and its event if it
      logs. */
  ghost predicate WentThrough(s: Sys, n: Sys, c: Command, fills: nat, final: Status, logs: bool) {
    && n.status == s.status[c.orderId := final]
    && n.events == (if logs && c.key.sequence > 0
                    then s.events[c.key := Payload(c.orderId, final, Fresh(s.nextTrade, fills))] else s.events)
    && forall t :: t in n.trades <==> t in s.trades || s.nextTrade <= t < s.nextTrade + fills
  }

  /** The order of this command waits or is open. */
  predicate Ready(s: Sys, c: Command) {
    && c.orderId in s.status
    && var o := s.status[c.orderId]; o.PendingMatch? || o.Open? || o.PartiallyFilled?
  }

  lemma MatchGoesThrough(s: Sys, w: nat, c: Command, fills: nat, final: Status)
    requires PcOf(s, w).Idle? && Ready(s, c) && c.key !in s.events
    ensures var b := Next(Next(s, Look(w, c)), Match(w, fills, final));
            && PcOf(b, w) == Matched(c, Payload(c.orderId, final, Fresh(s.nextTrade, fills)))
            && b.trades == s.trades && b.events == s.events && b.status == s.status && b.applied == s.applied
  {
  }

  lemma PersistGoesThrough(s: Sys, w: nat, c: Command, p: Payload, logs: bool)
    requires PcOf(s, w) == Matched(c, p) && p.orderId == c.orderId && Ready(s, c) && c.key !in s.events
    requires forall t :: t in p.trades ==> t !in s.trades
    ensures Next(s, Persist(w, true, logs)) == At(Write(s, c, p, logs), w, Settled(c))
  {
  }

  lemma CommitGoesThrough(s: Sys, w: nat, c: Command, fills: nat, final: Status, logs: bool)
    requires Inv(s) && PcOf(s, w).Idle? && Ready(s, c) && c.key !in s.events
    ensures var n := Next(Next(Next(s, Look(w, c)), Match(w, fills, final)), Persist(w, true, logs));
            PcOf(n, w) == Settled(c) && n.applied == s.applied && WentThrough(s, n, c, fills, final, logs)
  {
    var b, p := Next(Next(s, Look(w, c)), Match(w, fills, final)), Payload(c.orderId, final, Fresh(s.nextTrade, fills));
    MatchGoesThrough(s, w, c, fills, final);
    PersistGoesThrough(b, w, c, p, logs);
  }

  lemma FinishUp(s: Sys, w: nat, c: Command)
    requires PcOf(s, w) == Settled(c)
    ensures Run(s, [Complete(w), Apply(w)]) == At(s, w, Idle).(applied := s.applied + {c})
  {
    var back, m := [Complete(w), Apply(w)], Next(s, Complete(w));
    assert back[1..] == [Apply(w)] && back[1..][1..] == [];
    assert Run(m, back[1..]) == Next(m, Apply(w));
    assert Next(m, Apply(w)).workers == At(s, w, Idle).workers;
  }

  /** Progress: a worker that runs a command whose order waits or is open, unhindered and accepted by the ledger,
      takes it all the way, once. */
  lemma CommandGoesThrough(s: Sys, w: nat, c: Command, fills: nat, final: Status, logs: bool)
    requires Inv(s) && PcOf(s, w).Idle? && Ready(s, c) && c.key !in s.events
    ensures var n := Run(s, [Look(w, c), Match(w, fills, final), Persist(w, true, logs)] + [Complete(w), Apply(w)]);
            PcOf(n, w).Idle? && n.applied == s.applied + {c} && WentThrough(s, n, c, fills, final, logs)
  {
    var front := [Look(w, c), Match(w, fills, final), Persist(w, true, logs)];
    CommitGoesThrough(s, w, c, fills, final, logs);
    RunSplit(s, front, [Complete(w), Apply(w)]);
    RunOfThree(s, front[0], front[1], front[2]);
    FinishUp(Run(s, front), w, c);
  }

  lemma RunOfThree(s: Sys, a: Step, b: Step, d: Step)
    ensures Run(s, [a, b, d]) == Next(Next(Next(s, a), b), d)
  {
    assert [a, b, d][1..] == [b, d] && [b, d][1..] == [d] && [d][1..] == [];
    assert Run(Next(Next(s, a), b), [d]) == Next(Next(Next(s, a), b), d);
    assert Run(Next(s, a), [b, d]) == Run(Next(Next(s, a), b), [d]);
  }

  /** An order cancelled while its command is under way is decided: the command settles without matching or writing. */
  lemma CancelledSettles(s: Sys, w: nat, fills: nat, final: Status, settles: bool, logs: bool)
    requires PcOf(s, w).Looked? || (PcOf(s, w).Matched? && PcOf(s, w).payload.orderId == PcOf(s, w).command.orderId)
    requires Ready(s, PcOf(s, w).command)
    ensures var c := PcOf(s, w).command;
            var n := Next(s, CancelOrder(c.orderId));
            && n == s.(status := s.status[c.orderId := Canceled])
            && Next(n, if PcOf(s, w).Looked? then Match(w, fills, final) else Persist(w, settles, logs)) ==
                At(n, w, Settled(c))
  {
  }

  /** A retry after the commit completes the command without matching: no table but the applied commands changes. */
  lemma RetryCompletes(s: Sys, w: nat, c: Command)
    requires PcOf(s, w).Idle? && c.key.sequence > 0 && c.key in s.events
    ensures var e := Run(s, [Look(w, c), Complete(w), Apply(w)]);
            && e.applied == s.applied + {c} && PcOf(e, w).Idle?
            && e.status == s.status && e.events == s.events && e.trades == s.trades && e.produced == s.produced
  {
    var a := Next(s, Look(w, c));
    var b := Next(a, Complete(w));
    assert [Look(w, c), Complete(w), Apply(w)][1..] == [Complete(w), Apply(w)];
    assert [Complete(w), Apply(w)][1..] == [Apply(w)];
    assert [Apply(w)][1..] == [];
    assert Run(Next(b, Apply(w)), []) == Next(b, Apply(w));
    assert Run(b, [Apply(w)]) == Next(b, Apply(w));
    assert Run(a, [Complete(w), Apply(w)]) == Run(b, [Apply(w)]);
  }

  /** A worker that matched before another's commit cannot add trades to it: its transaction aborts or does nothing. */
  lemma LatePersistIsHarmless(s: Sys, w: nat, settles: bool)
    requires Inv(s) && PcOf(s, w).Matched?
    requires PcOf(s, w).payload.trades != {}
    requires PcOf(s, w).command.key.sequence > 0 && PcOf(s, w).command.key in s.events
    ensures var n := Next(s, Persist(w, settles, true));
            n.status == s.status && n.events == s.events && n.trades == s.trades && n.produced == s.produced
  {
    var pc := PcOf(s, w);
    var t :| t in pc.payload.trades;
    assert t in InFlight(s, w) && Drawn(s, w, t);
    assert t !in s.events[pc.command.key].trades;
  }

  // ---- The event is the exact condition ----

  /** Every transaction of the run is in the same mode. */
  ghost predicate InMode(steps: seq<Step>, logs: bool) {
    forall s :: s in steps && s.Persist? ==> s.logs == logs
  }

  /** No command of this key produced trades twice. */
  ghost predicate TradedOnce(s: Sys, k: Key) {
    forall i, j :: 0 <= i < j < |s.produced| ==> !(s.produced[i].command.key == k && s.produced[j].command.key == k)
  }

  /** In one mode the history tells of every production whether it was logged. */
  lemma {:induction false} ModeTells(s: Sys, steps: seq<Step>, logs: bool)
    requires InMode(steps, logs) && forall x :: x in s.produced ==> x.logged == Logs(x.command, logs)
    ensures forall x :: x in Run(s, steps).produced ==> x.logged == Logs(x.command, logs)
    decreases |steps|
  {
    if steps != [] {
      assert steps[0] in steps && forall x :: x in steps[1..] ==> x in steps;
      ModeTells(Next(s, steps[0]), steps[1..], logs);
    }
  }

  /** One round of a command without an event, crashing before it completes. */
  function UnloggedSteps(c: Command, logs: bool): seq<Step> {
    [Look(0, c), Match(0, 1, PartiallyFilled), Persist(0, true, logs), Crash(0)]
  }

  /** A round starts anew: its order can be matched, and no stored trade has the next id. */
  ghost predicate Anew(s: Sys, c: Command) {
    && StillMatchable(s, c.orderId) && PcOf(s, 0).Idle? && c.key !in s.events
    && forall t :: t in s.trades ==> t < s.nextTrade
  }

  lemma RoundMatches(s: Sys, c: Command)
    requires Anew(s, c)
    ensures var m := Next(Next(s, Look(0, c)), Match(0, 1, PartiallyFilled));
            && PcOf(m, 0) == Matched(c, Payload(c.orderId, PartiallyFilled, {s.nextTrade}))
            && m.status == s.status && m.events == s.events && m.trades == s.trades && m.produced == s.produced
            && m.nextTrade == s.nextTrade + 1
  {
    assert Fresh(s.nextTrade, 1) == {s.nextTrade};
  }

  lemma CommitsUnlogged(m: Sys, c: Command, id: nat, logs: bool)
    requires PcOf(m, 0) == Matched(c, Payload(c.orderId, PartiallyFilled, {id})) && StillMatchable(m, c.orderId)
    requires !Logs(c, logs)
    requires c.key !in m.events && id < m.nextTrade && forall t :: t in m.trades ==> t < id
    ensures var n := Next(Next(m, Persist(0, true, logs)), Crash(0));
            n.produced == m.produced + [Production(c, false)] && Anew(n, c)
  {
    var n := Next(m, Persist(0, true, logs));
    assert n == At(Write(m, c, PcOf(m, 0).payload, logs), 0, Settled(c));
    assert forall t :: t in n.trades ==> t in m.trades || t == id;
  }

  lemma UnloggedRound(s: Sys, c: Command, logs: bool)
    requires Anew(s, c) && !Logs(c, logs)
    ensures var n := Run(s, UnloggedSteps(c, logs));
            n.produced == s.produced + [Production(c, false)] && Anew(n, c)
  {
    var steps := UnloggedSteps(c, logs);
    RunOfFour(s, steps[0], steps[1], steps[2], steps[3]);
    RoundMatches(s, c);
    CommitsUnlogged(Next(Next(s, steps[0]), steps[1]), c, s.nextTrade, logs);
  }

  lemma RunOfFour(s: Sys, a: Step, b: Step, d: Step, e: Step)
    ensures Run(s, [a, b, d, e]) == Next(Next(Next(Next(s, a), b), d), e)
  {
    var t, u, v := Next(s, a), Next(Next(s, a), b), Next(Next(Next(s, a), b), d);
    assert [a, b, d, e][1..] == [b, d, e] && [b, d, e][1..] == [d, e] && [d, e][1..] == [e] && [e][1..] == [];
    assert Run(v, [e]) == Run(Next(v, e), []);
    assert Run(u, [d, e]) == Run(v, [e]);
    assert Run(t, [b, d, e]) == Run(u, [d, e]);
  }

  lemma {:induction false} RunSplit(s: Sys, a: seq<Step>, b: seq<Step>)
    ensures Run(s, a + b) == Run(Run(s, a), b)
    decreases |a|
  {
    if a == [] {
      assert a + b == b;
    } else {
      assert (a + b)[0] == a[0] && (a + b)[1..] == a[1..] + b;
      RunSplit(Next(s, a[0]), a[1..], b);
    }
  }

  /** Without an event a command that crashes after its commit and is retried trades twice. */
  lemma UnloggedTradesTwice(c: Command, logs: bool)
    requires !Logs(c, logs)
    ensures var e := Run(Init(map[c.orderId := Open]), UnloggedSteps(c, logs) + UnloggedSteps(c, logs));
            e.produced == [Production(c, false), Production(c, false)] && !TradedOnce(e, c.key)
  {
    var s := Init(map[c.orderId := Open]);
    UnloggedRound(s, c, logs);
    UnloggedRound(Run(s, UnloggedSteps(c, logs)), c, logs);
    RunSplit(s, UnloggedSteps(c, logs), UnloggedSteps(c, logs));
    var e := Run(s, UnloggedSteps(c, logs) + UnloggedSteps(c, logs));
    assert e.produced[0].command.key == c.key && e.produced[1].command.key == c.key;
  }

  /** A logged event is the exact condition: in one mode a command trades at most once in every run if and only if its
      transactions log, that is, the mode logs and its sequence is positive. */
  lemma TradedOnceIffLogged(c: Command, logs: bool)
    ensures Logs(c, logs) <==> forall status, steps :: InMode(steps, logs) ==>
              TradedOnce(Run(Init(status), steps), c.key)
  {
    if Logs(c, logs) {
      forall status, steps | InMode(steps, logs) ensures TradedOnce(Run(Init(status), steps), c.key) {
        var e := Run(Init(status), steps);
        ProducedAtMostOnce(status, steps);
        ModeTells(Init(status), steps, logs);
        forall i, j | 0 <= i < j < |e.produced|
          ensures !(e.produced[i].command.key == c.key && e.produced[j].command.key == c.key)
        {
          assert e.produced[i] in e.produced && e.produced[j] in e.produced;
        }
      }
    } else {
      var twice := UnloggedSteps(c, logs) + UnloggedSteps(c, logs);
      UnloggedTradesTwice(c, logs);
      assert InMode(twice, logs);
    }
  }
}
