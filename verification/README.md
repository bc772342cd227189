# Verified model of the exchange core

This project models the exchange's matching core, its crash recovery, its ledger and the indexes derived from them, and
proves that they keep what the system promises. `dafny verify dfyconfig.toml` checks everything.

Amounts count units of 10^-18, so that addition and subtraction are exact and only `Mul` rounds. An order, a trade or a row
is a datatype; what the Go code changes in place is a class whose methods are proved against functions on the abstract
state, and the theorems are lemmas about those functions.

**The book.** `BookSpec` is the resident limit order book as two flattened priority queues. `BookSides` and `MarketBooks` are
the book of the source: a price ladder and a FIFO queue per price on each side and an id index, all updated in place, each
method proved to do to the flattened view what `BookSpec` says. A ladder is determined by its flattened form
(`LadderUnique`), so equal views are equal books. `Sweeping`, `MatchingLaws`, `BookRuns`, `Snapshots` and `Refinement` prove
that a run of matches and cancels never breaks or crosses the book, that price-time priority and quantities are kept, that
a snapshot restores the book it was taken of, that replaying a logged result has the effect of matching, and that the book
does what the list matcher of `Engine` does on the flattened side. `TakerFates` says in the fields of the orders alone which
takers are accepted, what becomes of what is left of them, and what every trade does to its maker.

**Recovery.** `Recovery`, `Projection`, `Reload` and `Runtime` model the durable tables, the persisting transaction, the
restart with its retention check and its four branches, and histories with crashes. `ExactlyOnce` is the command-log protocol
as a state machine of workers that look, match, persist with or without an event, complete, apply and crash in any
interleaving.

**The ledger.** `Ledger` has the balance, reservation, withdrawal and settlement functions; `Accounts` runs them in place, with
rollback, under an invariant; `LedgerLaws` says what each moves and what undoes what. `Conservation` proves that money is
conserved over every run. `Settlement` proves that every engine trade can be settled, and `Drift` what per-fill rounding does to
a placed buy order. `Cover`, `CoverRuns`, `Transactions` and `ServiceMatch` prove that what a user has locked in a base asset is
what is left of their live sell orders, `Backing` that in every asset it is what their reservations hold. `Outcomes` and
`Refunds` say when placing, persisting and cancelling succeed, which rows they leave, and what an order that ends unfilled gives
back. `Deposits` proves gateway callbacks idempotent.

**All of it together.** `WholeSystem` is the asynchronous exchange of one market: orders, balances, projection, log, snapshot and
resident book, with requests served between the read and the persist of a command. One invariant over all of these holds over
every run, and a crash at its end reloads the book.

**Derived indexes.** `Batching` proves that pages of 500 candidates stand in for one match, and `MatchFates` that they leave
nothing on offer that the taker could have had. `PriceLevels` and `LevelTouches` prove that the touched-key refreshes of every
transaction keep the level table equal to the full aggregation, and `BookDepth` that this is the depth of the book; `Candles`
and `CandleWorker` that candles are those of the trade log whatever the batches and crashes; `DecimalText` that every amount
prints to one key of its own.

Some promises hold only under a condition, which is then proved to be the exact one:

- The active-order projection loads into the live book if and only if no dust below 0.000000005 rests in it
  (`Projection.ProjectionIsLiveIffNoDust`).
- `Apply` and `MatchLimit` agree on the whole taker if and only if it does not come in partially filled or expired
  (`Refinement.TakersAgreeIffFresh`); on trades and makers they always agree.
- A candle batch is counted once if and only if the offset it was read at is still current when it commits. The transaction
  does not check that, so two workers that read the same batch count it twice (`CandleWorker.CommitExactIffCurrent`,
  `CandleWorker.TwoWorkersCountTwice`).
- A level refresh restores the index if and only if every key whose aggregate changed was touched, or emptied in the
  market that is pruned (`PriceLevels.RefreshSyncsIff`).
- An announced deposit is used up by its settlement if and only if both callbacks carry the same reference
  (`Deposits.ResidualIffReferencesDiffer`).
- A numeral without a point survives `Trim` if and only if it does not end in a zero or is zero
  (`DecimalText.TrimPlainIff`).
- A restart rebuilds the live book if and only if it does not have to read a projection in which dust or cancelled orders are
  missing, and resumes at the live sequence if and only if it does not have to read a projection whose last applied command is
  behind (`Reload.ReloadIsLiveIff`, `WholeSystem.CrashRecovers`).
- A persist skipped because its order was decided meanwhile leaves tables and book coherent if and only if the match changed
  nothing the tables could tell (`Reload.SkippedCoherentIff`). The runtime keeps the matched book all the same.
- A command trades at most once in every run if and only if its transactions log their event
  (`ExactlyOnce.TradedOnceIffLogged`). `MatchOrder` logs none, nor does any mode under sequence zero.
- Where buyers pay, a settlement fails in a half of a seller if and only if the match hit a sell order that was cancelled: the
  resident book is not told of cancels (`Transactions.SellerFailsIffGone`). Such a command is rolled back with the cancelled
  order still in the book, for the next one to hit (`WholeSystem.CancelledAskBlocks`).
- A buy order can never be filled into debits beyond its reservation if and only if its price is a whole number of quote, since
  every fill rounds on its own (`Drift.NeverOverdrawsIffWhole`).
- Cancelling a live order fails if and only if rounding has used up its reservation before its quantity while other orders of
  its owner hold funds of the same asset (`Backing.CancelFailsIff`).
- A settled callback is refused if and only if settlements by hand have eaten into its deposit (`Deposits.RunStarvesIff`).

Every run theorem starts from an invariant that the empty book and the empty tables satisfy (`EmptyIsWF`, `EmptyIsConserved`,
`EmptyIsCovered`, `EmptyIsBacked`, `EmptyIsExplained`, `EmptyIsSound`). Order ids carry distinct positive sequence ids
(`NextOrderSequence`); the model keeps them as the ghost map `issued`.

## Model

| member | source | states |
|---|---|---|
| `Decimal.RoundNearest` | internal/core/decimal/decimal.go:26-28 | the printed product is within half a unit of the exact one and a tie moves away from zero |
| `Decimal.RoundUnique` | internal/core/decimal/decimal.go:26-28 | that property determines the rounded value |
| `Decimal.MulMonotone` | internal/core/decimal/decimal.go:53-55 | at one quantity a better price never costs more, rounding included |
| `Decimal.MulPositiveIff` | internal/core/decimal/decimal.go:53-55 | a product is positive after rounding exactly when it reaches half a unit |
| `Decimal.MulExactIff` | internal/core/decimal/decimal.go:53-55 | `Mul` is exact exactly when 18 digits hold the product |
| `DecimalText.PrintRoundTrip` | internal/core/decimal/decimal.go:26-28 | a printed amount parses back to that amount, for every amount |
| `DecimalText.PrintIsInjective` | internal/core/decimal/decimal.go:26-28 | different amounts print differently, so a printed price is a canonical key |
| `DecimalText.TrimPointed` | internal/core/decimal/decimal.go:57-64 | `Trim` keeps the value of every numeral with a point |
| `DecimalText.TrimPlainIff` | internal/core/decimal/decimal.go:57-64 | without a point it keeps the value if and only if the numeral does not end in zero, or is zero |
| `Engine.MatchLimit` | internal/core/matching/engine.go:23-88 | the loop computes the scan that the settlement, refinement and batching lemmas are about, error cases included |
| `Priority.SameMembersSameOrder` | internal/core/matching/book.go:325-354 | a side in price-time order is determined by the set of its orders |
| `Ladder.FlattenSorted` | internal/core/matching/book.go:479-490 | a sorted ladder of sequence-sorted queues reads out in price-time order |
| `Ladder.LadderUnique` | internal/core/matching/book.go:468-500 | price ladder and queues are determined by the flattened side |
| `BookSides.BookSide.InsertPrice` | internal/core/matching/book.go:479-490 | the ladder stays strictly sorted and gains exactly this price |
| `BookSides.BookSide.RemovePrice` | internal/core/matching/book.go:492-500 | the ladder loses exactly this price |
| `BookSides.SearchQueue` | internal/core/matching/book.go:342-347 | the binary search finds the one place that keeps the queue sorted by sequence |
| `BookSides.BookSide.Insert` | internal/core/matching/book.go:337-353 | the flattened side gains the order at its price-time place and nowhere else |
| `BookSides.BookSide.RemoveAt` | internal/core/matching/book.go:356-371 | the flattened side loses exactly that order, and an emptied price leaves the ladder |
| `BookSides.BookSide.ReplaceHead` | internal/core/matching/book.go:156-160 | a partly filled best maker keeps its place at the front |
| `MarketBooks.MarketBook.constructor` | internal/core/matching/book.go:37-46 | a new book is empty and valid |
| `MarketBooks.MarketBook.InsertResting` | internal/core/matching/book.go:325-354 | books a valid new order at its place, refuses any other with the right error, and leaves the book valid |
| `MarketBooks.MarketBook.RemoveAt` | internal/core/matching/book.go:356-371 | ladder, queue and id index lose the same one order |
| `MarketBooks.MarketBook.Apply` | internal/core/matching/book.go:61-183 | book and outcome are those of `ApplySpec`, also when matching fails half way; it accepts exactly the acceptable takers, and what is left of one rests or expires as its kind and time in force say |
| `MarketBooks.MarketBook.MatchAgainst` | internal/core/matching/book.go:91-161 | the in-place loop ends, and reports and leaves what the sweep over the flattened side does |
| `MarketBooks.MarketBook.ApplyResult` | internal/core/matching/book.go:185-208 | the replayed book and error are those of `ReplaySpec` |
| `MarketBooks.MarketBook.Cancel` | internal/core/matching/book.go:210-231 | exactly the order of that id leaves the book and is returned as canceled; unknown ids change nothing |
| `BookRuns.CancelRemoves` | internal/core/matching/book.go:210-231 | cancelling takes out the order of that id, keeps every other in its place, and changes nothing for an unknown id |
| `MarketBooks.MarketBook.RemoveOrder` | internal/core/matching/book.go:373-390 | exactly the order of that id leaves the book, if there is one |
| `MarketBooks.MarketBook.ActiveOrder` | internal/core/matching/book.go:233-248 | finds an order if and only if one of that id rests in the book |
| `MarketBooks.MarketBook.Load` | internal/core/matching/book.go:48-59 | books the bookable orders of a list up to the first that is refused |
| `MarketBooks.QueuedOrder` | internal/core/matching/book.go:101-115 | a queued order is always bookable, of this market and on the maker side, so the guards of the loop that skip others never fire |
| `TakerFates.AcceptedIff` | internal/core/matching/book.go:61-83 | `Apply` refuses a taker if and only if it lacks an id, names another market, has no side, price or remainder, or rests already; it then leaves the book alone; an acceptable one fails for quote precision only |
| `TakerFates.ApplyFate` | internal/core/matching/book.go:91-183 | a taker trades until it is filled, the next price is beyond its limit or the next order its own; the rest of a market or IOC order, or of one that met its own, expires and leaves no trace; any other rests, open or partially filled |
| `TakerFates.ApplyReduces` | internal/core/matching/book.go:116-160 | the k-th trade reduces the k-th order of the other side, in every field of order and trade |
| `TakerFates.TakerReturns` | internal/core/matching/book.go:147-182 | the taker comes back as it went in, filled by its trades; a market order is marked immediate |
| `TakerFates.ApplyDraws` | internal/core/matching/book.go:127-143 | the k-th trade carries the k-th id drawn and is stamped k microseconds after the start |
| `TakerFates.MatchLimitReduces` | internal/core/matching/engine.go:32-84 | every trade of `MatchLimit` reduces one of the makers it was given, in every field of order and trade |
| `TakerFates.MatchLimitDraws` | internal/core/matching/engine.go:54-60 | the same ids and times in `MatchLimit` |
| `TakerFates.BookedIff` | internal/core/matching/book.go:325-354 | the book holds exactly the valid new orders, each on its side |
| `TakerFates.MatchedInOrder` | internal/core/matching/book.go:325-354 | bids are matched from the highest price down, asks from the lowest up, and at one price the earlier sequence first |
| `TakerFates.NormalizedIs` | internal/core/matching/book.go:399-428 | what an order leaves out is filled in, and nothing else changes |
| `BookSpec.CanonicalView` | internal/core/matching/book.go:325-354 | two well-formed books with the same active orders are equal |
| `Sweeping.ApplyEffect` | internal/core/matching/book.go:61-183 | `Apply` keeps the book well formed even on an error, and a success changes the active orders by exactly the makers and taker it reports |
| `Sweeping.ReplayIsApply` | internal/core/matching/book.go:185-208 | `ApplyResult` on the earlier book with the result of a successful `Apply` never fails and gives the very book `Apply` left |
| `MatchingLaws.PriceTimePriority` | internal/core/matching/book.go:91-161 | the makers hit are a front of the priority queue, all but the last filled whole, at prices that only worsen, within the limit, never self-trading, as much as the front offers |
| `MatchingLaws.ApplyKeepsUncrossed` | internal/core/matching/book.go:61-183 | best bid stays strictly below best ask, also after a failed `Apply` |
| `MatchingLaws.ApplyConservesQuantity` | internal/core/matching/book.go:116-160 | filled plus remaining stays the quantity of the taker, every maker and every resting order |
| `MatchingLaws.SweepConserves` | internal/core/matching/book.go:116-160 | the fill of the taker grows by the sum of the trade quantities |
| `MatchingLaws.SweepFillsAll` | internal/core/matching/book.go:91-161 | a match fills all the taker wants or all the eligible front offers |
| `BookRuns.LoadIsCanonical` | internal/core/matching/book.go:48-59 | lists with the same bookable orders load into the same book, in any order |
| `BookRuns.LoadUndoesCapture` | internal/core/matching/snapshot.go:41-63 | loading the captured orders rebuilds the book |
| `BookRuns.RunInvariant` | internal/core/matching/book.go:61-231 | every run of `Apply` and `Cancel`, failures included, keeps the book sorted, bookable, uncrossed and conserving |
| `BookRuns.StepInvariant` | internal/core/matching/book.go:61-231 | one step keeps all that, and a cancel takes out exactly its order |
| `Refinement.ScanFollowsSweep` | internal/core/matching/engine.go:32-84 | the list matcher makes exactly the executions of the book on a sorted side |
| `Refinement.ApplyRefinesMatchLimit` | internal/core/matching/book.go:61-183 | `Apply` accepts, refuses, trades and updates makers as `MatchLimit` on the flattened side, and treats a fresh taker alike |
| `Refinement.TakersAgreeIffFresh` | internal/core/matching/engine.go:85-88 | they agree on the taker in every book if and only if it comes in fresh |
| `Snapshots.CaptureState` | internal/core/matching/snapshot.go:41-63 | the snapshot is the sealed list of the orders in priority order |
| `Snapshots.RestoreMarketBook` | internal/core/matching/snapshot.go:65-74 | restores what the snapshot describes or refuses it |
| `Snapshots.RestoreUndoesCapture` | internal/core/matching/snapshot.go:41-74 | restoring a captured book gives that book |
| `Snapshots.SameContentsSameState` | internal/core/matching/snapshot.go:41-74 | equal contents mean equal ladders, queues and id index |
| `Snapshots.ValidIff` | internal/core/matching/snapshot.go:108-126 | a snapshot is accepted if and only if it is of this version, names its market and is sealed as it stands |
| `Snapshots.RetainedIff` | internal/core/matching/snapshot.go:128-152 | a restart is allowed if and only if the command log is empty, or no command behind the snapshot is missing, the snapshot is young enough, and events are kept three times as long |
| `Recovery.RunIsItsLog` | internal/app/matcher/resident_runtime.go:128-154 | replaying what a run logged gives the book where it ended |
| `Recovery.RunLogInOrder` | internal/adapters/storage/postgres/match_event_log_repository.go:81-104 | a run logs its own commands only, in increasing sequence |
| `Recovery.RecoveryEqualsLive` | internal/app/matcher/resident_runtime.go:128-154 | for every in-order run and every cut, restoring the snapshot taken there and replaying the later events gives the live book and the live last sequence |
| `Projection.ProjectionLoads` | internal/app/matcher/resident_runtime.go:156-175 | the active rows load into one book in whatever order they are listed |
| `Projection.ProjectionIsLiveIffNoDust` | internal/adapters/storage/postgres/exchange_repository.go:1114-1116 | the projection loads into the live book if and only if no dust rests in it |
| `Projection.SkippedIff` | internal/app/orders/service.go:764-771 | a persist is skipped exactly for a stored order that neither waits nor is open nor partially filled |
| `Projection.SavedRowIff` | internal/adapters/storage/postgres/exchange_repository.go:1114-1116 | saving an order replaces its row and keeps it exactly if it is a limit order, open or partially filled, above dust |
| `Reload.PersistKeepsCoherent` | internal/app/orders/service.go:756-839 | a committed match keeps rows, log and snapshot leading to the live book, whatever the ledger says; with a snapshot of its own if and only if that book holds no dust |
| `Reload.ReloadIsLiveIff` | internal/app/matcher/resident_runtime.go:95-126 | `reload` fails if and only if its snapshot fails the retention check; else it rebuilds the live book if and only if it need not read a projection with dust, and resumes at the live sequence if and only if it need not read a projection whose last applied command is behind |
| `Reload.CrashRecovers` | internal/app/matcher/resident_runtime.go:95-126 | the same after any orderly history of commands, failures, skips and snapshots: the exact conditions under which a crashed runtime reloads the book and the sequence it lost |
| `Reload.SkippedCoherentIff` | internal/app/orders/service.go:766-771 | a persist skipped after matching leaves tables and book coherent if and only if the tables cannot tell the matched book from the one before |
| `Reload.SkippedCoherentIffUnchanged` | internal/app/matcher/resident_runtime.go:61-82 | without dust: if and only if the match changed nothing |
| `Reload.CommandHappens` | internal/app/matcher/resident_runtime.go:61-85 | a command leaves nothing if it cannot be matched or its transaction fails, the book alone if its order was decided meanwhile, everything if it commits |
| `Reload.PageAdvances` | internal/app/matcher/resident_runtime.go:134-152 | a page of events leaves exactly the events beyond its last sequence |
| `Runtime.Store.ListActiveOrders` | internal/adapters/storage/postgres/exchange_repository.go:708-735 | lists every active row once |
| `Runtime.Store.ListEventsAfter` | internal/adapters/storage/postgres/match_event_log_repository.go:81-104 | returns the first events beyond a sequence |
| `Runtime.Store.LoadProjection` | internal/app/matcher/resident_runtime.go:156-175 | the loaded book is the projected one |
| `Runtime.Store.AppendMatchEvent` | internal/adapters/storage/postgres/match_event_log_repository.go:28-79 | adds exactly this event, refuses it if and only if another payload holds its sequence, and leaves the log in order |
| `Runtime.AppendEffect` | internal/adapters/storage/postgres/match_event_log_repository.go:28-79 | the function behind it: one event per sequence, in order |
| `Runtime.Store.WriteResult` | internal/app/orders/service.go:771-826 | the loop over makers, the taker, the event and the snapshot write what `PersistSpec` says or ask for a rollback |
| `Runtime.Store.PersistBookMatchResult` | internal/app/orders/service.go:756-839 | all of the transaction or nothing, with the three outcomes told apart |
| `Runtime.CommittedIff` | internal/app/orders/service.go:756-826 | a result is committed if and only if its order waits or is open, its makers are stored, the ledger accepts it, its sequence holds no other result, and a snapshot due can be taken |
| `Runtime.MarketRuntime.Restore` | internal/app/matcher/resident_runtime.go:219-227 | replaces book and sequence by those of the snapshot, or neither |
| `Runtime.MarketRuntime.ReplayMatchEvents` | internal/app/matcher/resident_runtime.go:128-154 | the paged replay ends and equals one replay of all later events |
| `Runtime.MarketRuntime.Reload` | internal/app/matcher/resident_runtime.go:95-126 | the branch taken and the memory rebuilt are those of `ReloadSpec`, retention check included |
| `Runtime.MarketRuntime.ProcessCommand` | internal/app/matcher/resident_runtime.go:41-86 | an order that waits, is open or partially filled, and does not rest already, is matched, opened if it waited, and persisted with other transactions between; every other is left alone; on an error book and tables are as before, after a skip only the book has changed |
| `Runtime.MarketRuntime.MatchAndPersist` | internal/app/matcher/resident_runtime.go:61-85 | restoring the captured book undoes a partly executed match; an order decided since it was read skips the transaction |
| `ExactlyOnce.ProducedAtMostOnce` | internal/app/orders/service.go:756-839 | in every interleaving of workers, modes, retries and crashes no two producing transactions that log commit under one sequence, trades are what the log says, and nothing is applied undecided |
| `ExactlyOnce.RunKeepsLog` | internal/adapters/storage/postgres/match_event_log_repository.go:28-79 | a logged event is never rewritten and a stored trade never moves |
| `ExactlyOnce.RetryCompletes` | internal/app/matcher/service.go:317-341 | a retry after the commit completes the command without matching |
| `ExactlyOnce.CommandGoesThrough` | internal/app/matcher/service.go:234-281 | progress: an unhindered worker takes the command of a waiting or open order all the way, with its trades, its status, its event if it logs, and the command applied |
| `ExactlyOnce.CancelledSettles` | internal/app/orders/service.go:766-771 | an order cancelled while its command is under way settles it without matching or writing |
| `ExactlyOnce.LatePersistIsHarmless` | internal/adapters/storage/postgres/match_event_log_repository.go:28-79 | a worker that matched before the commit of another changes nothing |
| `ExactlyOnce.TradedOnceIffLogged` | internal/app/matcher/service.go:234-281 | a command trades at most once in every run if and only if its transactions log: a logging mode and a positive sequence |
| `ExactlyOnce.UnloggedTradesTwice` | internal/app/orders/service.go:599-665 | without an event, as in `MatchOrder` or under sequence zero, a command that crashes after its commit trades twice |
| `LedgerLaws.AnnounceThenSettle` | internal/adapters/storage/postgres/exchange_repository.go:387-443 | an announced deposit can always be settled, and then is exactly the amount more to spend |
| `LedgerLaws.SettleIff` | internal/adapters/storage/postgres/exchange_repository.go:414-443 | a deposit settles if and only if that much is pending, and moves that much |
| `LedgerLaws.RequestThenFinalize` | internal/adapters/storage/postgres/exchange_repository.go:1416-1463 | a cancelled withdrawal gives everything back, a completed one takes exactly its amount, and neither can be finalized again |
| `LedgerLaws.RequestIff` | internal/adapters/storage/postgres/exchange_repository.go:445-487 | a withdrawal is granted if and only if it is new and that much is available |
| `LedgerLaws.JournalTells` | internal/adapters/storage/postgres/exchange_repository.go:387-487 | every movement leaves one journal entry of its kind, account and amount |
| `LedgerLaws.ReservationAddsUp` | internal/adapters/storage/postgres/reservation_repository.go:92-121 | consumed, released and remaining always add up to what was reserved, and no other reservation or account moves |
| `LedgerLaws.ChangeTells` | internal/adapters/storage/postgres/reservation_repository.go:92-121 | a change succeeds if and only if that much remains, and counts as consumed or as released |
| `LedgerLaws.ReserveMoves` | internal/adapters/storage/postgres/exchange_repository.go:523-573 | reserving moves exactly the needed amount from available to locked, under a reservation of its own |
| `LedgerLaws.ReserveIff` | internal/adapters/storage/postgres/exchange_repository.go:523-573 | funds are reserved if and only if that much is available, exactly enough included, under a complete reservation of an unused id |
| `LedgerLaws.ReserveThenRelease` | internal/adapters/storage/postgres/exchange_repository.go:523-628 | releasing an untouched reservation undoes reserving it |
| `LedgerLaws.ReleaseMoves` | internal/adapters/storage/postgres/exchange_repository.go:575-628 | a release moves one clamped amount from locked to available of one account |
| `LedgerLaws.ReleaseIsClamped` | internal/adapters/storage/postgres/exchange_repository.go:606-628 | no more than was asked for, is locked, or is left of the reservation |
| `LedgerLaws.TradeExchanges` | internal/adapters/storage/postgres/exchange_repository.go:1502-1552 | a settled trade exchanges base for quote between four balances, to the unit, and moves nothing else |
| `LedgerLaws.PlanIff` | internal/adapters/storage/postgres/exchange_repository.go:1561-1595 | a trade has a settlement plan if and only if both orders are named, the amounts are positive and the price of the buyer covers the quote |
| `LedgerLaws.BuyerSettlesIff` | internal/adapters/storage/postgres/exchange_repository.go:1502-1533 | the half of a buyer succeeds if and only if the locked quote and the reservation hold what the plan takes |
| `LedgerLaws.SellerSettlesIff` | internal/adapters/storage/postgres/exchange_repository.go:1535-1547 | the half of a seller succeeds if and only if the locked base and the reservation hold the quantity |
| `LedgerLaws.SettlementUses` | internal/adapters/storage/postgres/exchange_repository.go:1502-1552 | a settlement counts the quote paid and the base sold as consumed, and what the limit exceeded the price by as released |
| `LedgerLaws.ReleaseUses` | internal/adapters/storage/postgres/exchange_repository.go:575-604 | a release counts as released |
| `Accounts.AccountStore.BalanceForUpdate` | internal/adapters/storage/postgres/exchange_repository.go:1465-1484 | a missing row is an empty balance, stored only on demand |
| `Accounts.AccountStore.SettleTrades` | internal/adapters/storage/postgres/exchange_repository.go:630-645 | settles trades against the stored orders up to the first error |
| `Accounts.AccountStore.Persist` | internal/app/orders/service.go:756-795 | the loops and early exits of the source add up to `PersistTx`, of which `Outcomes` and `Refunds` say what it stores and gives back |
| `Outcomes.PlaceOutcome` | internal/app/orders/service.go:318-345 | an order is placed if and only if its id is new and its funds can be reserved; it waits if it is to be matched later and is no stop |
| `Outcomes.CancelOutcome` | internal/app/orders/service.go:429-456 | unknown ids and foreign orders are refused, finished orders left alone, and live ones canceled with nothing left |
| `Outcomes.PersistOutcome` | internal/app/orders/service.go:756-783 | a result is written if its order waits or is open and its makers are stored; a decided order skips it |
| `Outcomes.WriteOutcome` | internal/app/orders/service.go:774-786 | a written result stores the taker and every maker as it names them, and changes no other row |
| `Refunds.UnmatchedIsRefunded` | internal/app/orders/service.go:789-793 | an order that expires without a trade, buy or sell, leaves every balance as before it was placed |
| `Refunds.ExpiredIsRefunded` | internal/app/orders/service.go:789-793 | an expired remainder moves what it needs, or what its reservation still holds if that is less, from locked to available, and nothing else |
| `Refunds.OthersKeepTheirs` | internal/app/orders/service.go:1205-1207 | nothing is released for a taker that did not expire or has nothing left |
| `Refunds.CancelledIsRefunded` | internal/app/orders/service.go:429-456 | an order cancelled before any trade leaves every balance as before it was placed |
| `Accounts.AccountStore.Transact` | internal/adapters/storage/postgres/exchange_repository.go:59-70 | a transaction takes full effect or none and says which; money stays conserved, what is locked stays reserved, and sell orders stay covered |
| `Accounts.AccountStore.MarkDepositPendingOnce` | internal/app/orders/service.go:1457-1485 | announces a deposit unless its entry exists |
| `Accounts.AccountStore.SettleGatewayDepositOnce` | internal/app/orders/service.go:1487-1532 | settles a deposit unless its entry exists, announcing it first if needed |
| `Conservation.SettleTradeConserves` | internal/adapters/storage/postgres/exchange_repository.go:1502-1552 | a settled trade makes and destroys nothing, in either asset |
| `Conservation.ReserveConserves` | internal/adapters/storage/postgres/exchange_repository.go:523-573 | a reservation moves funds within the user |
| `Conservation.ReleaseConserves` | internal/adapters/storage/postgres/exchange_repository.go:575-604 | a release, clamped or not, moves funds within the user as well |
| `Conservation.RunConserves` | internal/adapters/storage/postgres/exchange_repository.go:387-487 | over every run, per asset: all funds equal deposits marked pending minus withdrawals completed, and no bucket is negative |
| `Settlement.FillSettles` | internal/adapters/storage/postgres/exchange_repository.go:1561-1595 | a fill at the price of the maker within the limit of the buyer is accepted, and buyer debit is seller receipt plus buyer release |
| `Settlement.MatchLimitSettles` | internal/adapters/storage/postgres/exchange_repository.go:1561-1595 | every trade of every successful `MatchLimit` can be settled, whatever the makers |
| `Settlement.ApplySettles` | internal/adapters/storage/postgres/exchange_repository.go:1561-1595 | every trade of every successful `Apply` settles against its updated maker and final taker |
| `Settlement.ReserveDrift` | internal/adapters/storage/postgres/exchange_repository.go:1665-1670 | a buy order in n fills drifts from its reservation by at most (n + 2) / 2 units |
| `Settlement.NoDriftWhenRepresentable` | internal/core/decimal/decimal.go:53-55 | the reservation is used up to the last unit when 18 digits hold every product |
| `Drift.NeverOverdrawsIffWhole` | internal/adapters/storage/postgres/exchange_repository.go:1665-1670 | an order can never be filled into debits beyond its reservation if and only if its price is a whole number of quote |
| `Drift.SettledDebits` | internal/adapters/storage/postgres/exchange_repository.go:1502-1552 | settling the fills of a buy order takes exactly their rounded debits out of its reservation and out of its owner's locked quote |
| `Drift.PlacedDrift` | internal/adapters/storage/postgres/exchange_repository.go:1665-1670 | after `PlaceTx` and n settled fills the reservation differs from what the rest of the order needs by at most (n + 2) / 2 units |
| `Drift.FractionalPriceOverdraws` | internal/adapters/storage/postgres/exchange_repository.go:1614-1633 | at every other price there is a quantity and a list of fills that no placed order can be settled in |
| `Drift.WholePriceReserves` | internal/adapters/storage/postgres/exchange_repository.go:1665-1670 | at a whole price the reservation is what the rest of the order needs, to the unit |
| `Cover.SettleTradeCovers` | internal/adapters/storage/postgres/exchange_repository.go:1535-1547 | settling the next trade keeps the cover of the rest, and the half of the seller cannot fail |
| `CoverRuns.SavedCovers` | internal/app/orders/service.go:776-790 | saving a match result turns fills into amounts owed, user by user and reservation by reservation |
| `CoverRuns.EndCovers` | internal/app/orders/service.go:791-795 | releasing an ended sell order gives back exactly its remainder |
| `Transactions.SellerFailsIffGone` | internal/adapters/storage/postgres/exchange_repository.go:1535-1547 | where plans and buyers are accepted, settling a match fails in a half of a seller if and only if it hit a sell order no longer live in the store |
| `Transactions.LiveSellersSettle` | internal/adapters/storage/postgres/exchange_repository.go:1535-1547 | at a covered boundary no seller of a stored live order is short |
| `Transactions.GoneSellerFails` | internal/app/orders/service.go:774-790 | a match that hit a sell order cancelled behind the back of the resident book is rolled back |
| `Transactions.CancelCovers` | internal/app/orders/service.go:429-456 | cancelling keeps the exact cover |
| `Transactions.PlaceCovers` | internal/app/orders/service.go:318-337 | placing an order keeps the exact cover |
| `Transactions.WriteCovers` | internal/app/orders/service.go:756-795 | saving, settling and releasing any match result that commits keeps the exact cover, stale makers or not |
| `Transactions.RunCovers` | internal/app/orders/service.go:228-480 | over every run, matches that hit cancelled makers included, what a user has locked in a base asset is what is left of their live sell orders |
| `Transactions.NextConserves` | internal/app/orders/service.go:228-480 | no service transaction makes or destroys money |
| `Transactions.ApplyIsConsistent` | internal/core/matching/book.go:61-183 | what `Apply` reports for a taker read from the store, waiting or not, on a book that missed nothing but cancels, is a result for the stored orders |
| `ServiceMatch.MatchIsConsistent` | internal/app/orders/service.go:991-1043 | what the batched loop reports for a stored taker, waiting or not, is a result for the stored orders with every maker live |
| `Backing.RunStaysBacked` | internal/adapters/storage/postgres/exchange_repository.go:523-645 | over every run and in every asset, quote assets included, what a user has locked is what the reservations of their orders hold |
| `Backing.NextBacked` | internal/adapters/storage/postgres/reservation_repository.go:92-121 | placing, settling, releasing and cancelling move a reservation and the funds locked for it together |
| `Backing.CancelFailsIff` | internal/adapters/storage/postgres/exchange_repository.go:575-628 | cancelling a live order fails if and only if rounding has used up its reservation while other orders of its owner hold funds of that asset |
| `Backing.UsedUpEarly` | internal/adapters/storage/postgres/exchange_repository.go:1665-1670 | which happens: at a price of one half two fills of one unit use up what four units reserved |
| `WholeSystem.RunStaysSound` | internal/app/matcher/resident_runtime.go:41-86 | over every run of placements, commands, cancels, deposits and withdrawals, requests served between read and persist included: store, projection, log and snapshot agree with the resident book, money is conserved, every locked unit is reserved, sell orders are covered |
| `WholeSystem.CrashRecovers` | internal/app/matcher/resident_runtime.go:95-126 | a crash after any such run: the restart rebuilds the lost book if and only if it need not read a projection that misses dust or cancelled orders |
| `WholeSystem.CommitsIffSettled` | internal/app/orders/service.go:756-839 | a command whose order is still matchable commits if and only if the ledger accepts its trades |
| `WholeSystem.PlacedIsTaken` | internal/app/orders/service.go:335-345 | a placed order is there for its command to be matched, a stop is not |
| `WholeSystem.PlacedIsMatched` | internal/app/matcher/resident_runtime.go:52-82 | the command of a placed order matches it opened, and what comes of it is in book, store, log and ledger if the ledger accepts it |
| `WholeSystem.SkippedKeepsMatch` | internal/app/matcher/resident_runtime.go:61-85 | a match whose order was decided meanwhile stays in the resident book and reaches nothing else; one the ledger refuses is undone |
| `WholeSystem.ServedTakesEffect` | internal/app/orders/service.go:429-456 | a cancel reaches rows, projection and ledger but not the resident book |
| `WholeSystem.CommitAgreesIff` | internal/app/orders/service.go:809-825 | after a commit everything agrees with the matched book if and only if no snapshot was taken of a projection that misses part of it |
| `WholeSystem.CancelledAskBlocks` | internal/app/matcher/resident_runtime.go:61-82 | a command that hits a cancelled sell order of the resident book has no effect: store and book stay as they were, the cancelled order with them |
| `Deposits.CallbackEffect` | internal/app/orders/service.go:1457-1532 | no callback ever fails; the first settlement of a reference credits its amount, every other callback credits nothing |
| `Deposits.RunExplained` | internal/app/orders/service.go:1273-1324 | in any run with withdrawals, orders, trades and fair deposits by hand no callback fails, and the pending bucket is what is announced and unsettled plus what is requested and undecided plus what came by hand |
| `Deposits.RunStarvesIff` | internal/app/orders/service.go:1245-1271 | after any run at all, fair or not, a settled callback is refused if and only if settlements by hand have eaten into its deposit |
| `Deposits.CallbackOrderIsIrrelevant` | internal/app/orders/service.go:1273-1324 | order and repetition of callbacks do not change the balances |
| `Deposits.ResidualIffReferencesDiffer` | internal/app/orders/service.go:1732-1744 | a deposit stays pending after its settlement if and only if the two callbacks carry different references |
| `Deposits.ReferenceIsFirst` | internal/app/orders/service.go:1732-1739 | the first identifier present names the deposit, in the order event, payment, track, order, transaction |
| `Batching.MatchPages` | internal/app/orders/service.go:991-1035 | the loop ends, and computes `MatchBatches` with the rows its saves leave, of which `MatchFates.BatchesDrain` says that nothing more is on offer |
| `Batching.Match` | internal/app/orders/service.go:991-1043 | the loop and what follows it compute `MatchSpec`, of which `MatchFates.MatchFate` says what becomes of the taker and `Batching.BatchedIsWhole` that it is one `MatchLimit` |
| `Batching.ScanResumes` | internal/core/matching/engine.go:32-84 | a scan stopped anywhere goes on from what it has not hit, also after a self-trade |
| `Batching.CandidatesLeft` | internal/adapters/storage/postgres/exchange_repository.go:737-777 | saving filled makers drops them from the front of the candidates and nothing else |
| `MatchFates.CandidatesExact` | internal/adapters/storage/postgres/exchange_repository.go:737-777 | the candidates of a taker are exactly the active rows of its market on the other side within its limit, the limit included |
| `MatchFates.CandidatesSorted` | internal/adapters/storage/postgres/exchange_repository.go:737-777 | in price-time order |
| `MatchFates.PageIs` | internal/adapters/storage/postgres/exchange_repository.go:737-777 | a page is the first 500 of them |
| `MatchFates.SavedMakerIff` | internal/app/orders/service.go:1010-1016 | saving a maker replaces its row, drops it if it is filled or dust, and keeps the priority of the rows |
| `MatchFates.BatchesDrain` | internal/app/orders/service.go:991-1035 | the loop ends with the taker filled, nothing left on offer, or an order of its own next |
| `MatchFates.MatchFate` | internal/app/orders/service.go:991-1043 | what is left of a taker is expired, or open or partially filled with no row left that it could trade with |
| `MatchFates.MatchDraws` | internal/app/orders/service.go:991-1043 | over all pages the k-th trade carries the k-th id drawn |
| `Batching.BatchedIsWhole` | internal/app/orders/service.go:991-1043 | pages of 500 report the trades, makers and taker of one `MatchLimit` over all candidates, and fail exactly when it does |
| `PriceLevels.RefreshSyncsIff` | internal/adapters/storage/postgres/exchange_repository.go:797-902 | refresh and prune restore the full aggregation if and only if every changed key was touched, or emptied in this market |
| `PriceLevels.CommitStaysInSync` | internal/app/orders/service.go:2081-2090 | a transaction whose touches reach every saved order keeps the index equal to the full aggregation |
| `LevelTouches.SavedIsTouched` | internal/app/orders/service.go:277-425 | each refreshing transaction of the service, with the save and touch lists of its own code, touches every order it saves, triggered stops included |
| `LevelTouches.UnrefreshedLeavesRows` | internal/app/orders/service.go:318-345 | asynchronous and stop placement, which refresh nothing, leave the rows as they were |
| `LevelTouches.TransactionStaysInSync` | internal/app/orders/service.go:756-839 | so every transaction keeps the index equal to the full aggregation |
| `LevelTouches.RunStaysInSync` | internal/app/orders/service.go:2058-2090 | and so does every run, with no drift for reconciliation to report |
| `LevelTouches.RoundsSaveMakers` | internal/app/orders/service.go:991-1035 | what the batches of `match` save are exactly the makers it reports |
| `LevelTouches.SavesWhatItWrites` | internal/app/orders/service.go:756-790 | the save lists are the rows that the transactions over orders and balances write |
| `LevelTouches.MatchSavesItsResult` | internal/app/orders/service.go:991-1043 | a matching transaction saves the order it places, the makers it hits and the taker as it ends |
| `BookDepth.LevelsShowBook` | internal/adapters/storage/postgres/exchange_repository.go:797-854 | an index in sync with a projection of the whole book holds at every price the quantity and number resting there and the sequence of the next to be matched |
| `PriceLevels.NoDriftIff` | internal/adapters/storage/postgres/exchange_repository.go:928-1002 | reconciliation reports nothing if and only if all quantities and counts agree |
| `PriceLevels.LevelTracker.Touch` | internal/app/orders/service.go:2062-2068 | the tracker holds the key of every usable order it saw |
| `PriceLevels.FoldRows` | internal/adapters/storage/postgres/exchange_repository.go:822-838 | the fold over the rows is their sum, count and least sequence, in whatever order they are found |
| `PriceLevels.LevelStore.RefreshPriceLevels` | internal/adapters/storage/postgres/exchange_repository.go:797-854 | exactly the given keys are aggregated afresh, duplicates and unusable keys included |
| `PriceLevels.RefreshedAt` | internal/adapters/storage/postgres/exchange_repository.go:883-902 | what refreshing and pruning leave at one key: its fresh aggregate if touched, nothing if it is empty in the pruned market, the old row otherwise |
| `PriceLevels.LevelStore.SaveAndRefresh` | internal/app/orders/service.go:2081-2090 | saving, touching, refreshing and pruning add up to `Commit`, with a touch list of its own |
| `Candles.UpdatedIsDirect` | internal/adapters/storage/postgres/exchange_repository.go:1401-1413 | the incremental update continues the candle computed from all trades |
| `Candles.ProjectStaysExact` | internal/adapters/storage/postgres/exchange_repository.go:322-331 | however the log is cut, the candle table is the one computed from the whole log, slot by slot |
| `Candles.ExactTells` | internal/adapters/storage/postgres/exchange_repository.go:1371-1414 | an exact table has a row for exactly the supported slots in which a trade fell, with the first and last price, attained bounds, the summed volumes and the count |
| `Candles.HighAndLow` | internal/adapters/storage/postgres/exchange_repository.go:1401-1406 | high and low are attained and bound every trade |
| `Candles.TruncateIff` | internal/adapters/storage/postgres/exchange_repository.go:1372-1373 | a trade falls into the one slot whose window holds its time |
| `Candles.CoarserIsCombined` | internal/core/trade/candle.go:25-32 | every coarser candle is the combination of the finer candles nested in it |
| `Candles.IntervalsNest` | internal/core/trade/candle.go:25-32 | every supported interval divides every longer one |
| `CandleWorker.AfterIsRest` | internal/adapters/storage/postgres/exchange_repository.go:240-266 | the query beyond an offset returns exactly the trades after the one it names |
| `CandleWorker.FetchTakes` | internal/app/marketdata/service.go:62-99 | a read takes the earliest trades beyond the offset, as many as asked for, or 1000 |
| `CandleWorker.AdvanceIsLater` | internal/adapters/storage/postgres/projection_offset_repository.go:59-80 | the stored offset becomes the later of the two, and two trades at one sequence are a conflict |
| `CandleWorker.NoTimeAsksAll` | internal/adapters/storage/postgres/exchange_repository.go:240-266 | an offset without a time asks for the whole log |
| `CandleWorker.CommitExactIffCurrent` | internal/app/marketdata/service.go:83-121 | a batch keeps the candles exact if and only if its offset is still current |
| `CandleWorker.TwoWorkersCountTwice` | internal/adapters/storage/postgres/projection_offset_repository.go:59-80 | two commits of one batch leave wrong candles, and the offset raises no conflict |
| `CandleWorker.RunStaysSound` | internal/app/marketdata/service.go:83-121 | whatever the batch sizes and crash points of one worker, the candles are those of the trades it has counted |
| `CandleWorker.CaughtUp` | internal/app/marketdata/service.go:83-121 | a worker that finds nothing to read has the candles of the whole log |
| `Candles.UpdateStaysExact` | internal/adapters/storage/postgres/exchange_repository.go:1371-1414 | one more trade, written into the row of every interval, keeps the table the one computed from all trades |
| `CandleWorker.CandleStore.ListTradesAfter` | internal/adapters/storage/postgres/exchange_repository.go:240-266 | returns the first trades beyond an offset |
| `CandleWorker.CandleStore.CommitBatch` | internal/app/marketdata/service.go:100-117 | candles and offset move together or not at all |
| `CandleWorker.CandleStore.ProcessMarketCandles` | internal/app/marketdata/service.go:83-121 | one cycle counts exactly the next batch beyond the stored offset, or nothing |

## Left out

- Names and texts: trimming and upper-casing of names, client order ids, stop prices of resting orders and created-at stamps are not modelled; an order here has the fields that matching and settlement read.
- Numerals: exponents, fractions, plus signs and underscores, which `Parse` also accepts, are not modelled; nor are empty numeric strings.
- Nil receivers, missing id factories, context cancellation and driver errors are not modelled.
- SHA-256 and JSON encoding are taken to be collision-free: a checksum is the sealed body and an event id is its reference.
- SQL: a transaction is one atomic step over maps, sequences and sets; locks, isolation levels and claiming are a free choice of the next step.
- UUIDs and clocks: trade ids are drawn from a given stream and times are parameters; that generated ids do not repeat is the invariant of the counter they are drawn from.
- Stop orders: `activateTriggeredStops` writes no match event and releases nothing when a stop expires, so it takes no part in the replay, recovery, cover and whole-system theorems; the level index theorems include it.
- A cancel writes no match event, so replay cannot learn of it: `Recovery` and `Reload` are about commands alone, and `WholeSystem` has cancels and says what a restart then rebuilds.
- `WholeSystem` is about the resident runtime: the synchronous and unlogged modes are in `Transactions`, `ServiceMatch` and `ExactlyOnce`. The sequence a restart should resume from is that of the last commit; that a command completed without matching also advances the memory of the runtime is not modelled.
- MarketBooks.MarketBook.MatchAgainst: the guards of the source that drop an empty queue or an unbookable maker are left out of the loop, because `MarketBooks.QueuedOrder` shows that they cannot fire.
- Runtime.Store.WriteResult: trades, levels and stops of the same transaction are not among its tables, and the verdict of the ledger is a parameter.
- Runtime.Store.PersistBookMatchResult: the verdict of the ledger is a parameter of the imperative store; `WholeSystem` has both sides of the transaction.
- Reload.PersistKeepsCoherent: triggered stops are outside.
- Transactions.RunCovers: speaks of assets that no market uses as quote, because a quote asset drifts by rounding; for those `Backing.RunStaysBacked` is exact and `Drift.PlacedDrift` bounds the gap order by order, not summed over a run.
- WholeSystem.RunStaysSound: asks that no persist is skipped that changed the book and no snapshot taken of a projection that misses part of it; `Reload.SkippedCoherentIff` and `WholeSystem.CommitAgreesIff` say when these can be dropped: never, once there is a snapshot.
- Snapshots: that a tampered snapshot is refused is the definition of its checksum here.
- Batching.BatchedIsWhole: time stamps are compared modulo the clock, which each batch reads anew; trade ids are compared exactly. Rows have ids, no two the same.
- Batching.BatchedIsWhole: compares the service loop with `MatchLimit` on the same effective taker; a market sell with a price of its own is matched at another effective price by the book.
- CandleWorker.RunStaysSound: the trade log grows in (created_at, id) order, ids compared in dictionary order; a trade that arrives late is not seen by the worker.
- PriceLevels: the time stamp of a level, `PriceLevelDeltas` and the published deltas are not modelled.
- ExactlyOnce: outbox rows, match jobs and leases, whose status stale workers may overwrite, are not modelled.
- Market statistics, order books for display, REST, websocket, OIDC, the payment gateway client, the pool scanner, swap and pricing are not part of this model.
