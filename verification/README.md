# FoxML engine: a verified model of its hard core

A Dafny model of the trading engine's composer and kill machine, its training-data leakage controls, its
streaming labeler, its hashing, its config text and its order queue. Code that works in place is modelled
by classes and methods over arrays and fields, proved against functions; the theorems are about those
functions and about whole runs.

| file | models |
|---|---|
| `Decimal.dfy` | money: 8 decimals, saturating, one half-even reduce |
| `FillBooking.dfy`, `FillLedger.dfy`, `LedgerTotals.dfy`, `ExactBooks.dfy`, `TradeRecords.dfy`, `MoneyFlag.dfy` | per-node books and what their totals say of the trades, bounded fill rings, drainer cycles, the same books in integers, and the overflow bit that each cycle reports and clears |
| `KillMachine.dfy`, `StaleGrants.dfy` | reset, trip and drawdown per compose, the published word, grant and gate races with time and lazy rebuilds |
| `EventPump.dfy` | event drain, leg split, order submission |
| `Sha256.dfy`, `Sha256Constants.dfy`, `Sha256Examples.dfy`, `Fingerprint.dfy` | streaming SHA-256 against FIPS 180-4 (sections 4.2.2, 5.1.1, 5.2.1, 5.3.3, 6.2.2), a known answer, run fingerprint |
| `ValidationSplit.dfy`, `Labels.dfy`, `LabelMeaning.dfy`, `LabelLeakage.dfy`, `Compaction.dfy`, `CompactedGap.dfy`, `HeldOutLeak.dfy` | folds, purge gap, label leaves and what each class means over prices, non-interference, two-pass compaction |
| `BatchLabeler.dfy`, `CellMeaning.dfy`, `StreamingLabels.dfy` | the two-file window, what it writes for a sample, its refinement of the whole corpus |
| `DecimalText.dfy`, `ConfigText.dfy` | decimal printer and parser, config fields |
| `SubmitQueue.dfy` | drainer, worker and shutdown of the order queue |
| `LockToken.dfy`, `LockTokenExamples.dfy` | FNV hashing, held-out lock, label registry hash, a known answer |
| `SkillGate.dfy`, `GateMeaning.dfy`, `FoldGate.dfy` | class counts, balanced accuracy, the skill floor, the mean over folds |
| `Arithmetic.dfy`, `Wrappers.dfy` | shared facts and the option type |

## Main results

1. Rings refine direct booking: `FillLedger.Composer.FillEmit`, `FillLedger.Composer.FillRingsApply`, `FillLedger.Composer.DrainerLoop` over `FillBooking.NodeIndependence`.
2. Books are conserved, exactly when, and what the cycle reports say of it: `ExactBooks.BooksAreExactExactly`, `ExactBooks.IntegersAlwaysConserve`, `TradeRecords.RowIsTheRecord`, `MoneyFlag.NoReportExactly`.
3. Kill machine over every run: `KillMachine.NodeVerdict`, `KillMachine.RunPeakIsTheHighest`, `KillMachine.EnginePeaksNeverFall`, `KillMachine.TripsCountEdges`, `KillMachine.KillSwitch.ComposeAndKillEval`.
4. Races after a global kill: `StaleGrants.AtMostOneStaleGrant`, `StaleGrants.OpenGatesDieWithThePeriod`, `StaleGrants.OpenGatesBoundedExactly`.
5. Streaming SHA-256 is the standard's: `Sha256Stream.Sha256State.Final`, `Fingerprint.HashChunks`, `Sha256Constants.RoundConstantsAreCubeRoots`, `Sha256Examples.AbcDigest`.
6. Each label says what it should of the prices (`LabelMeaning.PeakValleyStableMeaning`, `LabelMeaning.TimedMeaning`, `LabelMeaning.ExtremumMeaning`), and training labels do not see evaluation data, exactly when: `LabelLeakage.HeldOutLabelsAreIndependent`, `LabelLeakage.LabelExactCondition`, `Compaction.TrainingBufferIgnoresEvaluation`.
7. Fold generation and purging: `ValidationSplit.AcceptedWalkForwardHasFolds`, `ValidationSplit.PurgeGapIsTheLeast`, `CompactedGap.RawGapKeptExactly`.
8. The two-file labeler refines the whole corpus: `BatchLabeler.ComputeLabelsBatch`, `StreamingLabels.StreamingMatchesCorpus`, `CellMeaning.CellIsTheLeaf`.
9. Both compaction passes agree: `Compaction.CompactHeldOut`, `Compaction.CompactWalkForward`.
10. Config text round trips, for every field, and why: `ConfigText.ClampedRoundTrip`, `ConfigText.FileRoundTrip`, `DecimalText.ParseIsExact`, `DecimalText.OverflowExactly`.
11. Order queue under every interleaving, safe and live: `SubmitQueue.RunConserves`, `SubmitQueue.EverythingIsReported`, `SubmitQueue.AfterShutdown`, `SubmitQueue.LateAcceptExactly`.
12. Tokens and registry text separate: `LockToken.NearbySplitsSeparate`, `LockToken.PlainRegistriesAreDetermined`.
13. The skill gate: `GateMeaning.BalancedIsTheMean`, `SkillGate.ConstantIsRefused`, `FoldGate.ConstantRefusedExactly`.
14. The event pump submits exactly the answers to its events: `EventPump.CommandsExactly`, `EventPump.SplitConserves`.

## Where a promise fails, and exactly when it holds

Each item is a lemma with a concrete input the code accepts, and beside it the exact condition or the
guarantee that does hold.

- The purge gap uses the mean sample spacing, which dropped samples widen; samples denser than the mean at
  the boundary leak into a training buffer the evaluation accepts (`HeldOutLeak.MeanCadenceCanLeak`; enough
  spacing is `LabelLeakage.HeldOutLabelsAreIndependent`, no dropped sample
  `LabelLeakage.PolledSamplesAreIndependent`, the exact condition on the ticks
  `LabelLeakage.LabelExactCondition`).
- The walk-forward gap is scaled by label density and can keep fewer samples than asked for
  (`CompactedGap.DenseRegionUnderPurges`; exactly when it does not, `CompactedGap.RawGapKeptExactly`, in the
  counts `CompactedGap.ScaledGapReaches`).
- A data file that cannot be opened between others restarts the labeler's offsets at zero
  (`StreamingLabels.MissingFileMislabels`; `BatchLabeler.OffsetsExact`, if and only if).
- Conservation of node profit needs sums inside the money domain (`FillBooking.SaturationLosesProfit`; the
  books are exact if and only if the fills keep every integer sum inside it,
  `ExactBooks.BooksAreExactExactly`).
- An overflow is reported at the next cycle tail and cleared. What the last compose and the shutdown passes
  book comes after every tail and is never reported (`MoneyFlag.LastComposeIsUnreported`; up to the last tail
  silence says exactly that nothing overflowed, `MoneyFlag.NoReportExactly`, if and only if), and the bit read
  at the end says nothing of the run (`MoneyFlag.FlagDownSaysNothing`).
- Money texts of twenty or more decimals are scaled as if they had nineteen
  (`DecimalText.TwentyDecimalsAreMisread`; `DecimalText.FracScaledExactly`, if and only if).
- A submit that passed its guard before shutdown can be accepted after it (`SubmitQueue.PhantomOrder`;
  `SubmitQueue.LateAcceptExactly`, if and only if).
- The skill gate compares a mean over folds with the floor of the whole population, so a predictor of one
  class can pass (`FoldGate.ConstantCanPassFolds`; `FoldGate.ConstantRefusedExactly`, if and only if, on the
  labels alone).
- The published global bit shuts a node's entry gate only through a full rebuild: a lazy cycle republishes
  an open gate (`StaleGrants.LazyCyclesKeepOpen`; bounded if and only if no lazy cycle can follow,
  `StaleGrants.OpenGatesBoundedExactly`; in no cycle that wakes a force period after the publication,
  `StaleGrants.OpenGatesDieWithThePeriod`).
- A split without samples is opened by the empty token (`LockToken.EmptyTokenOpens`;
  `LockToken.HeldOutSplit.Unlock`, if and only if). Registry rows are hashed without boundaries
  (`LockToken.BoundariesAreInvisible`; harmless for plain keys, `LockToken.PlainRegistriesAreDetermined`). A
  file that cannot be read leaves a fingerprint unchanged (`Fingerprint.UnreadableFileLeavesNoTrace`;
  `Fingerprint.FileHashesExactly`, if and only if).

Facts that are no defects but easy to assume otherwise:

- The account peak follows the actual apply schedule, as the code documents, while the totals do not
  (`LedgerTotals.PeakDependsOnSchedule`, `LedgerTotals.SameHistoriesSameBooks`).
- The adapter by itself accepts orders after a failed initialisation (`SubmitQueue.FailedInitAccepts`), which
  its one caller prevents by returning at once.
- A node peak can fall between resets only from zero under a negative allocation and value
  (`KillMachine.PeakFallsExactly`, if and only if); the engine floors every allocation at one unit, so its
  peaks never fall (`KillMachine.EnginePeaksNeverFall`).
- A percent value above a hundredth of the money domain would not survive its file form
  (`ConfigText.FileRoundTrip`, if and only if; the fault is always raised, `ConfigText.FileFaultExactly`), but
  every percent field clamps at a hundred units or less, so every field returns every value its clamp admits
  (`ConfigText.ClampedRoundTrip`, `ConfigText.PercentFieldsRoundTrip`).

## Model

| member | source | states |
|---|---|---|
| `Decimal.RoundDivExact` | `FixedPoint/FixedPointN.hpp:1839-1847` | the half-even reduce is the one nearest multiple, even on a tie (if and only if) |
| `Decimal.FractionStaysInside` | `FixedPoint/FixedPointN.hpp:1877-1890` | a fraction between 0 and 1 of a non-negative amount, rounded half even, stays inside the amount |
| `Decimal.AddIsTheNearest` | `FixedPoint/FixedPointN.hpp:1955-1963` | a sum is exact inside the domain and the nearer bound outside it; a difference is the sum with the negated amount |
| `Decimal.MulIsTheNearest` | `FixedPoint/FixedPointN.hpp:1877-1917` | a product is the nearest-even multiple of the exact one, cut at the domain, with the sign of the exact one |
| `Decimal.DivIsTheNearest` | `FixedPoint/FixedPointN.hpp:1918-1954` | so is a quotient; by zero it is the bound on the side of the dividend |
| `FillBooking.BookTouchesOneNode` | `CoreFrameworks/EngineCommon.hpp:677-741` | booking a fill is a step of its own node's books and leaves every other node's row and trackers as they were |
| `FillBooking.NodeIndependence` | `CoreFrameworks/EngineCommon.hpp:677-741` | over any interleaving, a node's books are the fold of its own fills alone |
| `FillBooking.BookConserves` | `CoreFrameworks/EngineCommon.hpp:677-741` | a booking that does not saturate keeps realized = wins - losses + partner pnl + pending nets, open notional = sum of the trackers, and the sign invariants |
| `FillBooking.FlatSellClearsSlot` | `CoreFrameworks/EngineCommon.hpp:683-705` | a slot-flat sell leaves both trackers of its slot exactly zero, whatever the partial legs rounded |
| `FillBooking.NodeRunConserves` | `CoreFrameworks/EngineCommon.hpp:677-741` | from zero, every run whose sums fit keeps the conservation law at its end |
| `FillBooking.NodeRunCounts` | `CoreFrameworks/EngineCommon.hpp:706-741` | wins + losses is the flat count (partials off) or its half with the pending bit as parity (partials on); entries + exits is the fill count; no condition on the amounts |
| `FillBooking.ClosedSlotIsZero` | `CoreFrameworks/EngineCommon.hpp:683-705` | a slot whose last fill closed it carries zero notional and zero pending net |
| `FillBooking.AllClosedMeansNothingOpen` | `CoreFrameworks/EngineCommon.hpp:683-705` | a node with every slot closed has zero open notional and nothing pending |
| `FillBooking.BoundedFlowConserves` | `CoreFrameworks/EngineCommon.hpp:677-741` | a condition on the fills alone (total absolute flow inside the money domain) under which nothing saturates and the books are conserved |
| `FillBooking.SaturationLosesProfit` | `FixedPoint/FixedPointN.hpp:1955-1963` | outside it conservation fails: a concrete run of three fills whose realized total saturates |
| `TradeRecords.TrackersAreSinceClose` | `CoreFrameworks/EngineCommon.hpp:677-705` | for every fill history, a slot's two trackers hold what was bought less what was sold, and the net of what was sold, since the slot was last closed |
| `TradeRecords.ClassifyRecords` | `CoreFrameworks/EngineCommon.hpp:706-741` | classifying the net of one close extends the record of trades by exactly it: with partial exits two closes in a row are one trade |
| `TradeRecords.RowIsTheRecord` | `CoreFrameworks/EngineCommon.hpp:677-741` | for every fill history, in integers: wins, losses and both gross totals count and sum the trades of the history, the waiting partner is its odd close, entries and exits are its buys and sells |
| `TradeRecords.SavedRowIsTheRecord` | `CoreFrameworks/EngineCommon.hpp:677-741` | and inside the money domain so does the row the engine keeps, realized profit and fees included |
| `ExactBooks.BooksAreExactExactly` | `CoreFrameworks/EngineCommon.hpp:677-741` | the saturating books equal the integer books after every fill if and only if no booking saturates, if and only if no integer sum leaves the money domain (a condition on the fills alone) |
| `ExactBooks.StepShows` | `CoreFrameworks/EngineCommon.hpp:677-741` | one booking is exact if and only if none of its sums saturates: a saturated amount always shows in the books |
| `ExactBooks.IntegersAlwaysConserve` | `CoreFrameworks/EngineCommon.hpp:677-741` | in integers profit and open notional are conserved by every fill sequence, without any condition |
| `ExactBooks.IntegersCloseOut` | `CoreFrameworks/EngineCommon.hpp:683-705` | in integers a node with every slot closed has nothing open, for every fill sequence |
| `ExactBooks.IntegerTotalsAreSums` | `CoreFrameworks/EngineCommon.hpp:677-705` | in integers realized profit and fees are the plain sums over the sells, for every fill sequence |
| `ExactBooks.InDomainConserves` | `CoreFrameworks/EngineCommon.hpp:677-741` | under the condition on the fills the saturating books are the integer books and are conserved |
| `ExactBooks.FlagExactly` | `FixedPoint/FixedPointN.hpp:1955-1963` | over fills booked with no cycle tail in between, from any ledger, the thread's overflow bit stays down if and only if it was down and no node booking and no global total saturates |
| `ExactBooks.ClearFlagExactly` | `FixedPoint/FixedPointN.hpp:1955-1963` | from empty books no booking saturates if and only if, in integers and on the fills alone, no node sum and no global total leaves the domain; what the reports of a run say of it is MoneyFlag.NoReportExactly |
| `LedgerTotals.ClearFlagMeansRunsFit` | `FixedPoint/FixedPointN.hpp:1955-1963` | bookings with no cycle tail in between that leave the bit down: no sum of any node left the domain |
| `LedgerTotals.ClearFlagConserves` | `CoreFrameworks/EngineCommon.hpp:677-741` | from empty books, bookings none of which saturates leave every node conserved, for every interleaving |
| `LedgerTotals.BalanceMatchesRows` | `CoreFrameworks/OrderManager.hpp:1796-1805` | while no booking saturates, the global balance moves by exactly what the node rows realize: the two books never drift |
| `LedgerTotals.NodeTotalsAreSums` | `CoreFrameworks/EngineCommon.hpp:677-705` | while none of its sums saturates, a node's realized profit and fees are the plain sums over its sells, entry fee share included |
| `LedgerTotals.FeesSplitByLiquidity` | `CoreFrameworks/OrderManager.hpp:1752-1805` | while no booking saturates, the global fees and fill counts split exactly by liquidity side |
| `LedgerTotals.EngineCountsMatchRows` | `CoreFrameworks/EngineCommon.hpp:685-702` | the engine-wide entry and exit counters are the sums of the node counters and every fill is one event |
| `LedgerTotals.SameHistoriesSameBooks` | `CoreFrameworks/EngineCommon.hpp:1039-1075` | two interleavings of the same per-node histories end with the same rows, and with the same balance when no booking of either saturates |
| `LedgerTotals.PeakIsPerFill` | `CoreFrameworks/OrderManager.hpp:1796-1805` | while no booking saturates, the peak is the largest balance after any single fill or the starting peak, and is attained |
| `LedgerTotals.PeakDependsOnSchedule` | `CoreFrameworks/OrderManager.hpp:1796-1805` | unlike the totals, the peak depends on the interleaving: two schedules of the same histories with different peaks |
| `MoneyFlag.FoldReadsNoFlag` | `FixedPoint/FixedPointN.hpp:1781-1788` | the overflow bit never feeds back into the books, and a stretch of bookings raises it by itself or not |
| `MoneyFlag.CyclesAreOneRun` | `CoreFrameworks/EngineSharded/Run.hpp:1613-1639` | cycles that report and clear the bit book exactly what one uninterrupted run of the same fills books, and some report or the bit still standing is up if and only if a booking or another money operation of the thread overflowed |
| `MoneyFlag.ReportIsLocal` | `CoreFrameworks/EngineSharded/Run.hpp:1617-1629` | the report of a tail is up if and only if something overflowed since the tail before it |
| `MoneyFlag.SilentExactly` | `CoreFrameworks/EngineSharded/Run.hpp:1617-1629` | no tail of a run reports if and only if nothing booked before the last tail saturated and no other money operation of the thread overflowed by then |
| `MoneyFlag.NoReportExactly` | `CoreFrameworks/EngineSharded/Run.hpp:1617-1629` | from empty books, over every run of cycles: no tail reports if and only if, in integers and on the fills alone, every node's and every global sum stayed in the domain up to the last tail, and no other money operation overflowed by then |
| `MoneyFlag.NothingOverflowedExactly` | `CoreFrameworks/EngineSharded/SlowPath.hpp:262-290` | the same for the whole run, last compose and shutdown passes included, when the bit still standing at the end is read too, which the code does not do |
| `MoneyFlag.SilenceConserves` | `CoreFrameworks/EngineSharded/Run.hpp:1617-1629` | a run whose tails all stay silent has every node conserved at its last tail |
| `MoneyFlag.FlagDownSaysNothing` | `CoreFrameworks/EngineSharded/Run.hpp:1617-1629` | a bit that is down at the end says nothing of the run: a tail that reports and clears, and books that are not conserved |
| `MoneyFlag.LastComposeIsUnreported` | `CoreFrameworks/EngineSharded/SlowPath.hpp:262-290` | what is booked after the last tail is never reported: silent tails and books that are not conserved |
| `FillLedger.Composer.constructor` | `CoreFrameworks/EngineCommon.hpp:297-325` | a zeroed composer with empty rings |
| `FillLedger.Composer.LedgerApplyFill` | `CoreFrameworks/OrderManager.hpp:1752-1805` | the global totals move by the fill: fees, balance, realized, per-fill peak |
| `FillLedger.Composer.ClassifyTrade` | `CoreFrameworks/EngineCommon.hpp:706-741` | with partials the first leg is parked and the second settles the pair |
| `FillLedger.Composer.BookBuy` | `CoreFrameworks/EngineCommon.hpp:677-705` | a buy moves exactly its node's row, its slot's tracker and the engine counters |
| `FillLedger.Composer.BookSellLeg` | `CoreFrameworks/EngineCommon.hpp:677-705` | one sell leg: relief, pending net, row totals |
| `FillLedger.Composer.BookSell` | `CoreFrameworks/EngineCommon.hpp:677-741` | a sell and, when flat, the close of its slot |
| `FillLedger.Composer.NodeRowsBook` | `CoreFrameworks/EngineCommon.hpp:677-741` | the in-place booking is the booking function on the whole ledger state |
| `FillLedger.Composer.ApplyFill` | `CoreFrameworks/EngineCommon.hpp:1039-1075` | one fill on both books |
| `FillLedger.Composer.PopAndApply` | `CoreFrameworks/EngineCommon.hpp:1039-1075` | the oldest fill of a ring is booked; the run history grows by it and the ring invariant holds |
| `FillLedger.Composer.DrainRing` | `CoreFrameworks/EngineCommon.hpp:1039-1075` | a ring is drained first in first out and left empty |
| `FillLedger.Composer.FillRingsApply` | `CoreFrameworks/EngineCommon.hpp:1039-1075` | every ring is empty afterwards and every node's books are the fold of all it ever emitted |
| `FillLedger.Composer.EmptyRingsSettle` | `CoreFrameworks/EngineCommon.hpp:1039-1075` | empty rings alone give that refinement, by node independence |
| `FillLedger.Composer.ReportMoneyFlag` | `CoreFrameworks/EngineSharded/Run.hpp:1617-1629` | the tail reports the bit, clears it and changes no book |
| `FillLedger.Composer.DrainerCycle` | `CoreFrameworks/EngineSharded/Run.hpp:1594-1639` | one cycle: the pass emits and books what full rings force, the tail reports, the compose books the rest; all rings are empty, every node holds the fold of all it emitted, and ledger and report are those of the cycle function |
| `FillLedger.Composer.DrainerLoop` | `CoreFrameworks/EngineSharded/Run.hpp:1578-1656` | the loop: its ledger and its reports are those of the run of cycles that the theorems about reports speak of |
| `FillLedger.Composer.FillEmit` | `CoreFrameworks/EngineCommon.hpp:1088-1098` | no emit fails at any capacity of at least one: a full ring is drained inline, counted once, and the fill is pushed; what was applied is exactly stated |
| `FillLedger.ConcatIsInOrder` | `CoreFrameworks/EngineCommon.hpp:1039-1075` | what a drain applies is the rings one after the other, each in its own order |
| `KillMachine.ComposeNodeSafe` | `CoreFrameworks/EngineCommon.hpp:540-605` | after a compose an untripped node is not in breach, the peak covers the value, a trip request beats a reset, only a reset clears |
| `KillMachine.TrippedExactly` | `CoreFrameworks/EngineCommon.hpp:425-605` | the flag is up if and only if it stood, was requested, or both thresholds are exceeded against the raised peak |
| `KillMachine.NodeVerdict` | `CoreFrameworks/EngineCommon.hpp:566-582` | in amounts: the drawdown is the quotient of the drop by the peak; a node let through is within its threshold or has lost no more than the minimum loss, and one that neither stood tripped nor was asked to trip is killed if and only if it is over both |
| `KillMachine.LargeLossKills` | `CoreFrameworks/EngineCommon.hpp:566-582` | a concrete node at half its peak under a threshold of a tenth is killed if and only if the minimum loss is below the loss |
| `KillMachine.PeakIsTheHigher` | `CoreFrameworks/EngineCommon.hpp:563-568` | after every compose the peak is the higher of the value and what it stood at, which is the allocation after a reset or where it was never set |
| `KillMachine.RunPeakIsTheHighest` | `CoreFrameworks/EngineCommon.hpp:563-568` | over any run without resets the peak at the end is the highest of the starting peak and every value shown, and is one of them |
| `KillMachine.MarkIsTheSum` | `CoreFrameworks/EngineCommon.hpp:560-579` | the value marked is allocation plus realized plus unrealized while the sums fit; a node threshold of its own stands and none inherits the global one |
| `KillMachine.AccountVerdict` | `CoreFrameworks/ControllerEventLoop.hpp:3680-3712` | the account is in breach if and only if its balance is below a floor that is set, or a limit is set and the nearest-even quotient of the drop by the peak is above it |
| `KillMachine.WordLayout` | `CoreFrameworks/EngineCommon.hpp:610-622` | the layout of the published word as its readers mask it: bit 0 the account, bits 16 to 31 the nodes |
| `KillMachine.PeakFallsExactly` | `CoreFrameworks/EngineCommon.hpp:560-570` | between resets the peak falls if and only if it stood at zero and allocation and value are both negative: never with the allocations the engine makes |
| `KillMachine.EnginePeaksNeverFall` | `CoreFrameworks/EngineSharded/Run.hpp:965-995` | with allocations of at least one unit, as every write of one is floored, after every compose of every run, resets included, the peak is positive and covers the value, the drawdown is the quotient by it, and the peak falls in no compose but a reset of the node |
| `KillMachine.DrawdownIsNearest` | `CoreFrameworks/EngineCommon.hpp:566-575` | the drawdown compared is the nearest-even 8-decimal quotient of drop by peak |
| `KillMachine.TripsCountEdges` | `CoreFrameworks/EngineCommon.hpp:575-605` | over any run, trips_total grows by exactly the 0-to-1 edges of the flag |
| `KillMachine.RunPeakCovers` | `CoreFrameworks/EngineCommon.hpp:540-605` | over any run without resets and with non-negative allocations the peak never falls, covers every value shown, and the flag never clears |
| `KillMachine.KillSwitch.ClearAllPermissions` | `CoreFrameworks/ControllerEventLoop.hpp:3630-3636` | every registered permission is cleared and nothing else |
| `KillMachine.KillSwitch.TripGlobal` | `CoreFrameworks/ControllerEventLoop.hpp:3637-3660` | a global trip sets the account flag, counts an edge only when it was clear, and clears permissions |
| `KillMachine.KillSwitch.ApplyResets` | `CoreFrameworks/EngineCommon.hpp:425-442` | exactly the masked nodes are reset |
| `KillMachine.KillSwitch.ApplyNodeTrips` | `CoreFrameworks/EngineCommon.hpp:443-478` | exactly the requested registered lanes are tripped |
| `KillMachine.KillSwitch.ApplyGlobalTrips` | `CoreFrameworks/EngineCommon.hpp:479-521` | any requested global lane trips the account, never clears it |
| `KillMachine.KillSwitch.EvaluateNodes` | `CoreFrameworks/EngineCommon.hpp:540-605` | all registered nodes, each on its own row |
| `KillMachine.KillSwitch.EvaluateGlobal` | `CoreFrameworks/ControllerEventLoop.hpp:3680-3712` | the account trips exactly on its floor or drawdown, is never cleared, and counts one edge |
| `KillMachine.KillSwitch.PublishKillWord` | `CoreFrameworks/EngineCommon.hpp:610-622` | the published word's bits are exactly the flags |
| `KillMachine.KillSwitch.EvalKills` | `CoreFrameworks/EngineCommon.hpp:425-622` | one whole compose after the apply: every node is the compose function, the word matches, the global bit is monotone |
| `KillMachine.KillSwitch.ComposeAndKillEval` | `CoreFrameworks/EngineCommon.hpp:407-622` | the fills are booked before anything is evaluated: the machine sees the settled ledger |
| `StaleGrants.AtMostOneStaleGrant` | `CoreFrameworks/EngineCommon.hpp:1749-1761` | after the bit is published, in every interleaving of any length, a node is granted at most once, and not at all unless it was past its load |
| `StaleGrants.UndisturbedCycle` | `CoreFrameworks/ControllerEventLoop.hpp:3330-3341` | a whole full-rebuild cycle from any state publishes the gate the strategy wants and grants a warm node, unless the bit is published, when it shuts the gate and grants nothing |
| `StaleGrants.TripThenPublish` | `CoreFrameworks/EngineCommon.hpp:610-622` | a trip with a publication anywhere after it leaves the bit published, whatever runs between |
| `StaleGrants.TripTakesPermissions` | `CoreFrameworks/ControllerEventLoop.hpp:3630-3660` | a trip takes every permission and none comes back without a grant |
| `StaleGrants.StaleReadCanGrant` | `CoreFrameworks/EngineCommon.hpp:1749-1761` | the bound is attained |
| `StaleGrants.StaleGrantPersists` | `CoreFrameworks/EngineCommon.hpp:1749-1761` | a stale grant is not taken back by the published bit alone |
| `StaleGrants.AtMostOneOpenGate` | `CoreFrameworks/ControllerEventLoop.hpp:3330-3341` | with every cycle a full rebuild, after the publication a node pushes an open entry gate at most once, and only if it was past its rebuild load |
| `StaleGrants.ShutForGood` | `CoreFrameworks/ControllerEventLoop.hpp:3330-3341` | a gate staged closed under the published bit is never opened again, by any kind of cycle |
| `StaleGrants.TimesAgreeAlways` | `CoreFrameworks/ControllerEventLoop.hpp:3518-3527` | in every state a run reaches, recorded rebuild times are past and a pending gate is its own cycle's or is republished within the force period |
| `StaleGrants.OpenGatesDieWithThePeriod` | `CoreFrameworks/ControllerEventLoop.hpp:2602-2632` | in every interleaving of any length, every open gate pushed after the publication comes from one full rebuild that read the word before it, in a cycle that woke less than one force period after that rebuild, so less than one force period after the publication |
| `StaleGrants.LastLazyCycle` | `CoreFrameworks/ControllerEventLoop.hpp:2609-2626` | the bound is met at every time up to the force period |
| `StaleGrants.LazyCyclesKeepOpen` | `CoreFrameworks/ControllerEventLoop.hpp:2602-2632` | within the force period a lazy cycle republishes what was staged: an open gate can be pushed any number of times after the publication |
| `StaleGrants.OpenGatesBoundedExactly` | `CoreFrameworks/ControllerEventLoop.hpp:2591-3341` | from every reachable state with the bit published, the open pushes of all runs are bounded, by one, if and only if nothing open is staged or on its way or its full rebuild is too old for a lazy cycle: always so with lazy cycles off or a force period of zero |
| `StaleGrants.AtomicCyclesStayIdle` | `CoreFrameworks/EngineCommon.hpp:1462-1765` | whole cycles leave every slow path idle at every publish point |
| `StaleGrants.AtomicCyclesNeverGrantStale` | `CoreFrameworks/EngineCommon.hpp:1749-1761` | with whole cycles atomic with respect to composes no slow-path grant follows the publication, and at most one warm-up grant of the backtest, if it was still due |
| `StaleGrants.WarmupIgnoresKill` | `Backtest/BacktestSharded.hpp:761-772` | the backtest's one-shot warm-up grant reads no word: while it is due the published bit does not stop it |
| `EventPump.SplitConserves` | `CoreFrameworks/EngineCommon.hpp:846-890` | both legs lie in [0, intended] and sum exactly to it despite the rounding |
| `EventPump.EntryLegsAddUp` | `CoreFrameworks/EngineCommon.hpp:846-890` | when both events read the same intended quantity (the slow path may rewrite it between them), the quantities ordered for a node's two entry events lie within it and add up to it; with partials off the first is all of it |
| `EventPump.TwoProductsWouldLeak` | `CoreFrameworks/EngineCommon.hpp:846-890` | two independent rounded products would not: a concrete split that loses a unit |
| `EventPump.SlotsAreDistinct` | `CoreFrameworks/ControllerEventLoop.hpp:1452-1464` | distinct (node, leg) never share a slot |
| `EventPump.SlotsAreTheBooks` | `CoreFrameworks/ControllerEventLoop.hpp:1452-1464` | the slot an order is submitted for is the one its fill is booked on, leg for leg (if and only if) |
| `EventPump.LegAIsNearest` | `CoreFrameworks/EngineCommon.hpp:846-890` | leg A is the exact share rounded once, half to even |
| `EventPump.CommandAnswers` | `CoreFrameworks/EngineCommon.hpp:820-1010` | the command of an event, written out: same leg and price, the slot of the leg, a buy if and only if the event is an entry, what the slot holds for an exit, the leg's share for an entry, and only when that is positive |
| `EventPump.CommandsExactly` | `CoreFrameworks/EngineCommon.hpp:791-1020` | the commands of a batch are exactly the answers to its events, in order: one for every event that has an answer and none for the others |
| `EventPump.ForSlotIsTheFilter` | `CoreFrameworks/EngineCommon.hpp:791-1020` | a slot's share of a run of commands is its own commands, all of them, in order |
| `EventPump.WellFormedCounts` | `CoreFrameworks/EngineCommon.hpp:800-1015` | what a call counts is the number of events whose leg has a slot |
| `EventPump.NodeBatches` | `CoreFrameworks/EngineCommon.hpp:800-1015` | a call takes the first sixteen events of each node with a core, node after node |
| `EventPump.CommandsArePositive` | `CoreFrameworks/EngineCommon.hpp:791-1020` | every submitted command has a positive quantity and comes from an event of the batch; what it is for that event is EventPump.CommandsExactly |
| `EventPump.CommandsConcat` | `CoreFrameworks/EngineCommon.hpp:800-1015` | order-preserving: a batch's commands and count are those of its parts in order |
| `EventPump.OfferKeepsPrefix` | `CoreFrameworks/SPSCRing.hpp:186-210` | a bounded queue keeps what it held and the earliest commands that fit, in order |
| `EventPump.Pump.PushSubmit` | `CoreFrameworks/OrderManager.hpp:1653-1671` | a push is dropped exactly when the slot's queue is full |
| `EventPump.Pump.HandleEvent` | `CoreFrameworks/EngineCommon.hpp:820-1010` | an event is counted exactly when it maps to a slot and submitted exactly when its quantity is positive |
| `EventPump.Pump.DrainNode` | `CoreFrameworks/EngineCommon.hpp:800-1015` | at most sixteen events leave a ring per call, oldest first, and no other ring changes |
| `EventPump.Pump.DrainEventsAndSubmit` | `CoreFrameworks/EngineCommon.hpp:791-1020` | one call hands over exactly the in-order well-formed positive commands of every node's batch |
| `Sha256Standard.PadZerosIsSmallest` | `Backtest/Fingerprint.hpp:140-151` | the padding is the least zero count that completes a block (section 5.1.1 of FIPS 180-4) |
| `Sha256Standard.ChChooses` | `Backtest/Fingerprint.hpp:94-113` | the choice function takes the second argument where the first has its bits set and the third elsewhere |
| `Sha256Standard.MajVotes` | `Backtest/Fingerprint.hpp:94-113` | two equal arguments of the majority function are its result |
| `Sha256Standard.BigEndianDigits` | `Backtest/Fingerprint.hpp:140-160` | the length bytes are the base-256 digits of the length, most significant first |
| `Sha256Constants.TableIsThePrimes` | `Backtest/Fingerprint.hpp:83-84` | the sixty-four numbers behind the constants are exactly the primes up to 311, in order |
| `Sha256Constants.RoundConstantsAreCubeRoots` | `Backtest/Fingerprint.hpp:83-84` | section 4.2.2: every round constant is the first thirty-two bits of the fraction of the cube root of its prime, as an inequality between integers |
| `Sha256Constants.InitialValueIsSquareRoots` | `Backtest/Fingerprint.hpp:115-121` | section 5.3.3: every word of the initial value is the same of the square root of one of the first eight primes |
| `Sha256Examples.AbcDigest` | `Backtest/Fingerprint.hpp:94-169` | the hex digest of the three bytes abc is the published one: padding, schedule, rounds, feed-forward and text on a known answer |
| `Sha256Stream.Sha256State.constructor` | `Backtest/Fingerprint.hpp:115-121` | the initial hash value of section 5.3.3 and an empty message |
| `Sha256Stream.Sha256State.Transform` | `Backtest/Fingerprint.hpp:94-113` | in-place compression equals the standard's compression of the block |
| `Sha256Stream.Sha256State.Absorb` | `Backtest/Fingerprint.hpp:122-138` | a piece that fits extends the message by exactly itself |
| `Sha256Stream.Sha256State.Update` | `Backtest/Fingerprint.hpp:122-138` | any update extends the message by exactly its bytes; the 64-bit length wraps as written |
| `Sha256Stream.Sha256State.PadMessage` | `Backtest/Fingerprint.hpp:140-147` | the padding loop ends at the first block position with eight bytes left |
| `Sha256Stream.Sha256State.PadWithLength` | `Backtest/Fingerprint.hpp:140-151` | the bytes hashed are exactly the padded message |
| `Sha256Stream.Sha256State.Final` | `Backtest/Fingerprint.hpp:140-160` | for every message below 2^61 bytes the digest is the standard's one-shot digest |
| `Fingerprint.HexRoundTrip` | `Backtest/Fingerprint.hpp:162-169` | the hex text is twice as long and determines the bytes |
| `Fingerprint.ToHex` | `Backtest/Fingerprint.hpp:162-169` | sixty-four lower-case digits and a closing zero |
| `Fingerprint.HashChunks` | `Backtest/Fingerprint.hpp:122-160` | every split of a message into updates gives the same digest, the standard's |
| `Fingerprint.FlattenIsInOrder` | `Backtest/Fingerprint.hpp:122-138` | the message of several updates is their bytes in order and nothing else |
| `Fingerprint.HashFile` | `Backtest/Fingerprint.hpp:187-203` | reading in fixed chunks hashes the file content |
| `Fingerprint.Compute` | `Backtest/Fingerprint.hpp:232-257` | the fingerprint is the digest of the concatenated description |
| `Fingerprint.FilesInOrder` | `Backtest/Fingerprint.hpp:232-257` | the files contribute in order, each readable one its digest and each other one nothing |
| `Fingerprint.UnreadableFileLeavesNoTrace` | `Backtest/Fingerprint.hpp:232-257` | a file that cannot be read does not change the fingerprint |
| `Fingerprint.FileHashesExactly` | `Backtest/Fingerprint.hpp:232-257` | two file lists contribute the same bytes if and only if their readable files have the same digests in the same order |
| `ValidationSplit.TicksToSamplesIsCeiling` | `Backtest/ValidationSplit.hpp:132-140` | the conversion is the smallest sample count that covers the ticks (if and only if) |
| `ValidationSplit.CadenceIsTheMean` | `Backtest/ValidationSplit.hpp:105-125` | the cadence is the whole part of the mean spacing of the samples, and one where they lie closer or are fewer than two |
| `ValidationSplit.PurgeGapIsTheLeast` | `Backtest/ValidationSplit.hpp:171-178` | the gap is the least one that covers the horizon in ticks and the feature reach in samples, with the fewest samples that cover the buffer on top (if and only if) |
| `ValidationSplit.FoldMeaning` | `Backtest/ValidationSplit.hpp:352-410` | a fold field by field: test ranges in closed form, training up to exactly the gap before them when that meets the minimum, and nothing otherwise |
| `ValidationSplit.TestRangesTile` | `Backtest/ValidationSplit.hpp:240-330` | the test ranges tile [0, total), are disjoint, and differ by at most one in size |
| `ValidationSplit.UsableIsMonotone` | `Backtest/ValidationSplit.hpp:352-410` | once a fold is valid all later ones are, and train ends strictly grow |
| `ValidationSplit.AcceptedWalkForwardHasFolds` | `Backtest/BacktestEngine.hpp:2659-2675` | when the refusal does not fire, exactly n-2 or n-1 folds are valid |
| `ValidationSplit.GenerateExplicit` | `Backtest/ValidationSplit.hpp:352-410` | the folds written are the specified ones and the count is the number of valid ones |
| `ValidationSplit.Generate` | `Backtest/ValidationSplit.hpp:240-347` | the same with the gap computed from the horizon, and the post-check invalidates nothing |
| `ValidationSplit.PostCheck` | `Backtest/ValidationSplit.hpp:322-346` | the post-generation check invalidates exactly the violating folds |
| `ValidationSplit.ViolationsAreCounted` | `Backtest/ValidationSplit.hpp:322-346` | the count taken off is the number of valid folds that reach past their gap |
| `ValidationSplit.Verify` | `Backtest/ValidationSplit.hpp:416-434` | accepts exactly the clean fold tables |
| `ValidationSplit.GeneratedFoldIsClean` | `Backtest/ValidationSplit.hpp:416-434` | a generated fold is clean if and only if the purge is non-negative or the fold is invalid |
| `ValidationSplit.NoFoldUsableExactly` | `Backtest/ValidationSplit.hpp:352-410` | no fold is valid if and only if what precedes the last test range, less the gap, is below the training minimum |
| `ValidationSplit.CompactedPurgeIsTheNearest` | `Backtest/BacktestEngine.hpp:2640-2643` | the scaled gap is the raw gap times the kept share, rounded half up and at least one, as an inequality between integers (if and only if) |
| `ValidationSplit.PlanWalkForward` | `Backtest/BacktestEngine.hpp:2509-2690` | the walk-forward plan refuses exactly on too few samples or an unaffordable purge, aborts exactly when no fold is valid (a condition on the counts), and otherwise goes on with clean folds |
| `Labels.FirstTouchMeaning` | `Backtest/LabelFunctions.hpp:194-232` | the barrier scan returns the side touched first and neither only when neither is touched |
| `LabelMeaning.TouchIsFirst` | `Backtest/LabelFunctions.hpp:194-232` | each result of the scan, over the prices: up or down first, or every tick strictly inside (if and only if, all three) |
| `LabelMeaning.PeakValleyStableMeaning` | `Backtest/LabelFunctions.hpp:568-600` | 2 if and only if the up barrier is reached first in the window, 1 if and only if the down barrier is, 0 if and only if neither is |
| `LabelMeaning.BarrierMeaning` | `Backtest/LabelFunctions.hpp:216-232` | 1, 0 and one half in the same way, over the rest of the market |
| `LabelMeaning.WinLossMeaning` | `Backtest/LabelFunctions.hpp:194-211` | 1 for the up barrier first, else 0 |
| `LabelMeaning.VolBarrierMeaning` | `Backtest/LabelFunctions.hpp:364-404` | the same with barriers k deviations away, and one half without a deviation |
| `LabelMeaning.VolBarrier3CMeaning` | `Backtest/LabelFunctions.hpp:408-445` | the three-class form, 0 without a deviation |
| `LabelMeaning.TimedMeaning` | `Backtest/LabelFunctions.hpp:466-515` | the three-class form over its window, its width written out with the square root of the look-ahead |
| `LabelMeaning.ExtremumMeaning` | `Backtest/LabelFunctions.hpp:519-560` | 1 if and only if some tick of the first quarter of the look-ahead is the first to hold the window's extreme and beats the sample price by more than a tenth of a percent |
| `LabelMeaning.ForwardPnlMeaning` | `Backtest/LabelFunctions.hpp:235-258` | the return in percent to the tick the look-ahead names or the last one, with its zero and not-finite cases |
| `LabelMeaning.CrossSectionalMeaning` | `Backtest/LabelFunctions.hpp:616-650` | the three cross-sectional labels are one forward return, none past the market or without a positive price |
| `LabelMeaning.RegimeMeaning` | `Backtest/LabelFunctions.hpp:262-268` | the regime is carried over |
| `LabelMeaning.MomentsAreSums` | `Backtest/LabelFunctions.hpp:315-360` | the running moments are count, sum and sum of squares of the window's returns |
| `LabelMeaning.RollingSigmaMeaning` | `Backtest/LabelFunctions.hpp:315-360` | there is a deviation if and only if there are enough ticks and returns and their variance, the mean squared distance from the mean, is not negligible; it is its root |
| `Labels.ScanTouch` | `Backtest/LabelFunctions.hpp:194-232` | the scan loop is that function |
| `Labels.RollingSigmaScan` | `Backtest/LabelFunctions.hpp:315-360` | the rolling deviation loop is its specification, with no value below the minimum periods |
| `Labels.MomentsDependOnPast` | `Backtest/LabelFunctions.hpp:315-360` | the rolling sums read only prices before the sample |
| `Labels.PeakValleyStableLeaf` | `Backtest/LabelFunctions.hpp:568-600` | the leaf loop is its specification |
| `Labels.VolBarrier3CTimedLeaf` | `Backtest/LabelFunctions.hpp:466-515` | the leaf loop is its specification |
| `Labels.ExtremumLeaf` | `Backtest/LabelFunctions.hpp:519-560` | the peak and valley leaf loops are one specification with opposite signs |
| `Labels.ExtremeMeaning` | `Backtest/LabelFunctions.hpp:519-560` | the extreme found dominates every price of the window and is attained or the entry price |
| `Labels.LeafNonInterference` | `Backtest/LabelFunctions.hpp:466-640` | two markets equal up to the leaf's reach give the same label, for every forward-bounded leaf |
| `Labels.UnboundedScanReachesAnything` | `Backtest/LabelFunctions.hpp:194-211` | the unbounded leaf has no such bound: any suffix can change its label |
| `LabelLeakage.HeldOutLabelsAreIndependent` | `Backtest/BacktestEngine.hpp:3340-3375` | labels of training samples below the purged end do not depend on evaluation ticks, when samples are at least the measured cadence apart |
| `LabelLeakage.PurgeClearsWindow` | `Backtest/ValidationSplit.hpp:136-178` | the gap puts the last training window before the first evaluation tick |
| `LabelLeakage.HeldOutPurgeIsTheLeast` | `Backtest/BacktestEngine.hpp:3340-3352` | the held-out gap is the least that covers horizon and feature reach, with the fewest samples that cover 512 ticks on top |
| `LabelLeakage.ClearWindowIsIndependent` | `Backtest/LabelFunctions.hpp:466-640` | a clear window is enough, whatever the spacing |
| `LabelLeakage.PolledSamplesAreIndependent` | `Backtest/BacktestSharded.hpp:541-560` | samples polled at one interval with none dropped meet the spacing, so their training labels are independent of evaluation ticks |
| `LabelLeakage.LabelExactCondition` | `Backtest/LabelFunctions.hpp:466-640` | for every forward-bounded leaf but the volatility-scaled one, positive prices and barriers: independent of the evaluation block if and only if the last training sample's window ends before it, where an extremum window below eight ticks counts as empty |
| `LabelLeakage.ForwardPnlExactCondition` | `Backtest/LabelFunctions.hpp:235-258` | for the forward return a clear window is also necessary (if and only if) |
| `HeldOutLeak.MeanCadenceCanLeak` | `Backtest/BacktestEngine.hpp:3340-3412` | the cadence is a mean: for every bound on the feature reach there are ticks, a split and two markets equal before the first evaluation sample that the evaluation accepts, with a hundred training and ten evaluation samples, and whose training buffers differ in a label |
| `HeldOutLeak.LeakReachesBuffer` | `Backtest/BacktestEngine.hpp:3368-3412` | a label difference below the purged end reaches the training buffer that the evaluation fills |
| `BatchLabeler.OffsetsExact` | `Backtest/BacktestEngine.hpp:1066-1092` | the offset table is right if and only if no file is missing behind earlier rows |
| `BatchLabeler.InWindow` | `Backtest/BacktestEngine.hpp:1248-1292` | every labelled sample's row is inside the buffer |
| `BatchLabeler.SlideDown` | `Backtest/BacktestEngine.hpp:1212-1217` | the overlapping move brings the second file to the front |
| `BatchLabeler.Refill` | `Backtest/BacktestEngine.hpp:1168-1243` | at each turn the buffer holds exactly files f and f+1 |
| `BatchLabeler.LabelFile` | `Backtest/BacktestEngine.hpp:1248-1293` | one file's turn writes the cell of every target for exactly its samples |
| `BatchLabeler.LabelTurn` | `Backtest/BacktestEngine.hpp:1248-1293` | a turn keeps all earlier cells and the not-finite prefill of later ones |
| `BatchLabeler.ComputeLabelsBatch` | `Backtest/BacktestEngine.hpp:1026-1300` | after the walk every reached sample holds its cell for every target, the rest hold the prefill; too many targets change nothing |
| `CellMeaning.CellIsTheLeaf` | `Backtest/BacktestEngine.hpp:1118-1150` | a cell is the label leaf on the target's resolved slots, every default written out, or what its kind writes for a label that is not finite |
| `CellMeaning.PercentCells` | `Backtest/BacktestEngine.hpp:1118-1293` | over prices: a percent target is decided by the first tick past the barrier widened by the fee, and a regime is carried over |
| `CellMeaning.StandInsAreDropped` | `Backtest/BacktestEngine.hpp:1255-1293` | what stands for a missing label is dropped by the filter of its task, except the zero of a regression |
| `StreamingLabels.LabelledByItsFile` | `Backtest/BacktestEngine.hpp:1244-1293` | with true offsets and ascending samples, the turn that labels a sample is the file that holds its row (if and only if) |
| `StreamingLabels.EverySampleOnce` | `Backtest/BacktestEngine.hpp:1244-1293` | every sample of the corpus is labelled by exactly one turn |
| `StreamingLabels.StreamingMatchesCorpus` | `Backtest/BacktestEngine.hpp:1066-1293` | for leaves without look-back whose window ends inside the next file, or at the corpus end, the label equals the one on the full concatenation |
| `StreamingLabels.LeafShift` | `Backtest/LabelFunctions.hpp:194-640` | such a leaf does not notice what precedes its window |
| `StreamingLabels.SequentialWalks` | `Backtest/BacktestEngine.hpp:1244-1293` | K single-target walks fill the table with the same values as one K-target walk |
| `StreamingLabels.MissingFileMislabels` | `Backtest/BacktestEngine.hpp:1080-1092` | a missing middle file restarts the offsets at zero and mislabels: a concrete corpus |
| `Compaction.KeptIsTheFilter` | `Backtest/BacktestEngine.hpp:2595-2605` | strictly increasing source indices, all the kept ones and only them |
| `Compaction.KeptUnless` | `Backtest/BacktestEngine.hpp:2595-2605` | a sample is kept unless it has the neutral value under the binary filter or no finite label under the multiclass one (if and only if) |
| `Compaction.IsDegenerate` | `Backtest/BacktestEngine.hpp:2559-2582` | refuses if and only if some scanned label exists and all of them are equal |
| `Compaction.SingleClassMeaning` | `Backtest/BacktestEngine.hpp:2559-2582` | a single class means: one value among the labels that every finite, not neutral label has |
| `Compaction.CompactWalkForward` | `Backtest/BacktestEngine.hpp:2500-2605` | refused exactly on too few samples or a single-class set; otherwise the order-preserving filter |
| `Compaction.FillSides` | `Backtest/BacktestEngine.hpp:3395-3412` | the filling pass selects the same samples: both buffers are filled exactly |
| `Compaction.CompactHeldOut` | `Backtest/BacktestEngine.hpp:3303-3412` | every refusal in order, else both sides filled exactly from their filters |
| `Compaction.PurgeBandIsDropped` | `Backtest/BacktestEngine.hpp:3340-3412` | between any training row and any evaluation row lie at least purge samples |
| `Compaction.TrainingBufferIgnoresEvaluation` | `Backtest/BacktestEngine.hpp:3340-3412` | end to end over three files: markets equal up to the first evaluation sample give the same training rows and labels |
| `Compaction.CompactedGapSpans` | `Backtest/BacktestEngine.hpp:2595-2605` | a gap in compacted space spans at least as many source samples |
| `CompactedGap.RawGapKeptExactly` | `Backtest/BacktestEngine.hpp:2640-2680` | for every planned walk-forward, all boundaries of all accepted label sets with the given counts keep the raw gap if and only if the scaled gap is no smaller than the raw one or no fold is usable |
| `CompactedGap.ScaledGapReaches` | `Backtest/BacktestEngine.hpp:2640-2643` | the scaled gap reaches the raw one if and only if twice the raw gap times the dropped samples is at most the samples, or the raw gap is at most one |
| `CompactedGap.DenseRegionUnderPurges` | `Backtest/BacktestEngine.hpp:2559-2680` | it can fall short: for every raw gap from two on, a two-class accepted label set and a planned walk-forward with a usable fold whose boundary keeps no more than the raw gap |
| `DecimalText.ToText` | `FixedPoint/FixedPointN.hpp:2361-2377` | the buffer holds sign, integer part, point and eight decimals |
| `DecimalText.TextIsTheDecimal` | `FixedPoint/FixedPointN.hpp:2361-2377` | the text: a minus sign only below zero, whole units without leading zeros, a point and eight decimals, which together are the value |
| `DecimalText.ScanText` | `FixedPoint/FixedPointN.hpp:2055-2085` | one pass computes sign, 64-bit accumulators and flags |
| `DecimalText.RunWraps` | `FixedPoint/FixedPointN.hpp:2055-2085` | for digit runs of any length the accumulator is the number modulo 2^64 and the wrap flag is raised if and only if the number does not fit |
| `DecimalText.FlagsExact` | `FixedPoint/FixedPointN.hpp:2045-2085` | each flag is up if and only if the text has the defect it names |
| `DecimalText.FracScaledExactly` | `FixedPoint/FixedPointN.hpp:2130-2142` | the fraction is scaled exactly if and only if it has at most nineteen digits or is too small to show the wrong power |
| `DecimalText.ParseIsExact` | `FixedPoint/FixedPointN.hpp:2127-2150` | the parse is the exact decimal rounded once half even, with the overflow and excess flags exactly right |
| `DecimalText.OverflowExactly` | `FixedPoint/FixedPointN.hpp:2127-2150` | for digit strings of any length, the overflow flag is raised if and only if one does not fit 64 bits or what the accumulators hold leaves the domain |
| `DecimalText.MalformedExactly` | `FixedPoint/FixedPointN.hpp:2045-2085` | any text is malformed if and only if, after one sign, it holds a foreign character, two points or no digit |
| `DecimalText.PlusAndPoint` | `FixedPoint/FixedPointN.hpp:2045-2085` | a plus sign and a closing point change nothing |
| `DecimalText.TwentyDecimalsAreMisread` | `FixedPoint/FixedPointN.hpp:2130-2142` | a text of twenty decimals is read ten times too large |
| `DecimalText.PrintedParses` | `FixedPoint/FixedPointN.hpp:2361-2377` | printing then parsing saturates to the domain and flags exactly the values outside it |
| `ConfigText.Trim` | `CoreFrameworks/CfgFieldDispatch.hpp:304-308` | the in-place trim loop removes trailing zeros past two decimals and nothing else |
| `ConfigText.TrimIsTheLongest` | `CoreFrameworks/CfgFieldDispatch.hpp:304-308` | what is trimmed is the longest run of closing zeros that leaves two decimals |
| `ConfigText.SaveDecimal` | `CoreFrameworks/CfgFieldDispatch.hpp:292-310` | the saved text is the trimmed exact decimal, in percent for percent fields |
| `ConfigText.SavedIsTheDecimal` | `CoreFrameworks/CfgFieldDispatch.hpp:292-310` | the saved text: no leading zero, two to eight decimals, no closing zero past two, and the value in file units exactly |
| `ConfigText.HundredthIsTheNearest` | `CoreFrameworks/CfgFieldDispatch.hpp:117-136` | reading a percent field takes the nearest-even hundredth, with the sign of the value |
| `ConfigText.RefusedExactly` | `CoreFrameworks/CfgFieldDispatch.hpp:109-148` | in a file a malformed or overflowing text refuses the boot and nothing else does, on the wire nothing does; the value is the clamped one, scaled only for a percent field of a file |
| `ConfigText.FileRoundTrip` | `CoreFrameworks/CfgFieldDispatch.hpp:109-148` | saving and parsing returns the same money if and only if it is inside the clamp and, in a percent field, fits times a hundred (or the clamp gives it back) |
| `ConfigText.ClampedRoundTrip` | `CoreFrameworks/CfgFieldDispatch.hpp:109-148` | a field whose clamp is within a hundredth of the domain returns every value its clamp admits, with no fault |
| `ConfigText.PercentFieldsRoundTrip` | `CoreFrameworks/CfgFieldRegistry.hpp:550-553` | every percent field, whose clamp is at most a hundred units, returns every value its clamp admits, with no fault |
| `ConfigText.SaveAndReload` | `CoreFrameworks/CfgFieldDispatch.hpp:109-310` | saving and loading: the value and the fault are exactly those of the round trip |
| `ConfigText.FileFaultExactly` | `CoreFrameworks/CfgFieldDispatch.hpp:117-136` | the boot fault is raised on a saved text exactly for the values that do not fit: never a silent change by the parser |
| `ConfigText.SavedIsInjective` | `CoreFrameworks/CfgFieldDispatch.hpp:292-310` | two values that fit never share a saved text |
| `ConfigText.EmitDecimal` | `CoreFrameworks/CfgFieldDispatch.hpp:536-542` | the wire line is name, raw fraction with all decimals, newline |
| `ConfigText.WireRoundTrip` | `CoreFrameworks/CfgFieldDispatch.hpp:536-542` | the wire value reads back without scaling, for every money value inside the clamp, never with a fault |
| `ConfigText.EmitIsInjective` | `CoreFrameworks/CfgFieldDispatch.hpp:536-542` | distinct values give distinct signed lines |
| `ConfigText.NumberIsInFront` | `CoreFrameworks/CfgFieldDispatch.hpp:229-235` | the number of a text is leading space, one sign and the digits up to the first other character, whatever follows; no digits are zero |
| `ConfigText.ReadModulo` | `CoreFrameworks/CfgFieldDispatch.hpp:229-235` | an unsigned field reads its number modulo 2^64 as a signed value, and minus one for every number beyond |
| `ConfigText.SignedRoundTrip` | `CoreFrameworks/CfgFieldDispatch.hpp:229-235` | a signed integer reads back if and only if it is in the C int range and inside the clamp |
| `ConfigText.UnsignedRoundTrip` | `CoreFrameworks/CfgFieldDispatch.hpp:229-235` | an unsigned one if and only if it is inside the clamp; the upper half of 64 bits falls to the lower bound |
| `ConfigText.BoolRoundTrip` | `CoreFrameworks/CfgFieldDispatch.hpp:213-218` | saving and reading a boolean is its normal form, the identity exactly on 0 and 1 |
| `ConfigText.BoolOfNumber` | `CoreFrameworks/CfgFieldDispatch.hpp:213-218` | any number in the C int range reads as a boolean by not being zero |
| `ConfigText.ReadEnum` | `CoreFrameworks/CfgFieldDispatch.hpp:178-211` | first matching label, else number in range, else the default |
| `ConfigText.EnumMeaning` | `CoreFrameworks/CfgFieldDispatch.hpp:178-211` | the first label that is the text, case ignored; where there is none the number in front of it, in range, else the default |
| `ConfigText.CaseIsIgnored` | `CoreFrameworks/CfgFieldDispatch.hpp:178-211` | two characters match if and only if they are equal or one letter in its two cases |
| `ConfigText.EnumRoundTrip` | `CoreFrameworks/CfgFieldDispatch.hpp:178-211` | a saved enumerated value reads back if and only if no label is its numeral, or the first such label is its own |
| `SubmitQueue.RunConserves` | `CoreFrameworks/BinanceAdapter.hpp:227-313` | in every reachable state of every interleaving: accepted = reported + at most one in flight + queue, in order; zeros = refusals + drops; nothing accepted was not asked for |
| `SubmitQueue.EverythingIsReported` | `CoreFrameworks/BinanceAdapter.hpp:227-313` | delivery: with the worker up and no signal, three worker steps for each queued order and three more report everything that was in flight or queued, in order, whatever is submitted in between, in every interleaving |
| `SubmitQueue.AcceptedIsReported` | `CoreFrameworks/BinanceAdapter.hpp:227-313` | from boot: every order accepted by then is reported |
| `SubmitQueue.StillOnTheWay` | `CoreFrameworks/BinanceAdapter.hpp:227-313` | meanwhile what was owed stays at the head of what is reported, in flight and queued, and each three steps report one more |
| `SubmitQueue.NeverInitRefuses` | `CoreFrameworks/BinanceAdapter.hpp:450-465` | an adapter that was never initialised refuses every submit |
| `SubmitQueue.ReportedAtMostOnce` | `CoreFrameworks/BinanceAdapter.hpp:227-313` | no order is reported more often than it was submitted, and reports are a prefix of the accepted orders |
| `SubmitQueue.RunSettled` | `CoreFrameworks/BinanceAdapter.hpp:417-428` | when shutdown has returned the worker has exited and no worker is counted |
| `SubmitQueue.AfterShutdown` | `CoreFrameworks/BinanceAdapter.hpp:417-428` | after shutdown nothing is in flight, nothing more is reported, later submits are refused, the queue keeps what it held |
| `SubmitQueue.NoLateAccept` | `CoreFrameworks/BinanceAdapter.hpp:450-481` | with an idle drainer nothing is accepted after shutdown |
| `SubmitQueue.LateAcceptExactly` | `CoreFrameworks/BinanceAdapter.hpp:450-481` | an order is accepted after shutdown if and only if the drainer had passed the guard and the queue has room |
| `SubmitQueue.PhantomOrder` | `CoreFrameworks/BinanceAdapter.hpp:450-481` | that race is reachable |
| `SubmitQueue.SignalEndsWorker` | `CoreFrameworks/BinanceAdapter.hpp:227-240` | after the signal at most one more order is reported |
| `SubmitQueue.JoinReturns` | `CoreFrameworks/BinanceAdapter.hpp:417-428` | three worker steps after the signal the join returns, whatever else runs |
| `SubmitQueue.FailedInitStrands` | `CoreFrameworks/BinanceAdapter.hpp:341-375` | after a failed initialisation nothing is ever reported |
| `SubmitQueue.FailedInitAccepts` | `CoreFrameworks/BinanceAdapter.hpp:341-375` | yet submits are accepted, because the worker count is already set |
| `SubmitQueue.Adapter.Init` | `CoreFrameworks/BinanceAdapter.hpp:341-380` | an adapter with one running worker and an empty queue |
| `SubmitQueue.Adapter.Guard` | `CoreFrameworks/BinanceAdapter.hpp:458-465` | the guard is the ask step |
| `SubmitQueue.Adapter.PushOrder` | `CoreFrameworks/BinanceAdapter.hpp:466-481` | the push is accepted exactly when the queue has room, else counted as dropped |
| `SubmitQueue.Adapter.Submit` | `CoreFrameworks/BinanceAdapter.hpp:450-530` | an uninterrupted submit returns one exactly when a worker is up and the queue has room, and changes nothing else otherwise |
| `SubmitQueue.Adapter.WorkerStep` | `CoreFrameworks/BinanceAdapter.hpp:227-313` | one atomic step of the worker loop |
| `SubmitQueue.Adapter.ShutdownState` | `CoreFrameworks/BinanceAdapter.hpp:417-428` | an uninterrupted shutdown ends, reports at most one more order, and leaves the accepted rest in the queue |
| `LockToken.StepInjective` | `Backtest/HeldOutSplit.hpp:90-98` | xor then multiply by the odd prime is injective in the word and in the byte |
| `LockToken.Fnv1a64` | `Backtest/HeldOutSplit.hpp:90-98` | the hash loop, with zero meaning the standard offset |
| `LockToken.OneByteApart` | `Backtest/HeldOutSplit.hpp:90-98` | whatever surrounds one byte, the hash tells its values apart (if and only if) |
| `LockToken.SameTail` | `Backtest/HeldOutSplit.hpp:90-98` | over the same bytes the hash is injective in its start |
| `LockToken.GenToken` | `Backtest/HeldOutSplit.hpp:115-129` | the token is two seeded hashes of the record in hex |
| `LockTokenExamples.KnownToken` | `Backtest/HeldOutSplit.hpp:90-129` | a known answer: record layout, byte order, both seeds, both hashes and the digits of one token |
| `LockToken.TokensSeparate` | `Backtest/HeldOutSplit.hpp:115-129` | records that differ in one byte have tokens that differ in both halves |
| `LockToken.NearbySplitsSeparate` | `Backtest/HeldOutSplit.hpp:115-129` | a split whose sample count, boundary or seed differs in any one byte has a different token |
| `LockToken.TestCountIsTheFraction` | `Backtest/HeldOutSplit.hpp:152-161` | both sides hold samples if and only if there are at least two; the count is the clamped fraction to half a sample, or one |
| `LockToken.HeldOutSplit.Make` | `Backtest/HeldOutSplit.hpp:143-175` | a locked split with its own token, or a degenerate one with the empty token |
| `LockToken.HeldOutSplit.Unlock` | `Backtest/HeldOutSplit.hpp:184-194` | opens if and only if the text is the token |
| `LockToken.HeldOutSplit.Relock` | `Backtest/HeldOutSplit.hpp:206-216` | locked again under the token of the given seed |
| `LockToken.EmptyTokenOpens` | `Backtest/HeldOutSplit.hpp:143-194` | the empty text opens a degenerate split and no other |
| `LockToken.RegistryHash` | `Backtest/LabelFunctions.hpp:735-752` | the registry hash is the hash of the concatenated rows |
| `LockTokenExamples.RowsRead` | `Backtest/LabelFunctions.hpp:735-752` | what a row of the table adds to the hashed text, read as characters |
| `LockToken.RenamedRowChangesHash` | `Backtest/LabelFunctions.hpp:735-752` | one changed character of one key changes the registry hash, wherever the row stands |
| `LockToken.BoundariesAreInvisible` | `Backtest/LabelFunctions.hpp:735-752` | row boundaries are not hashed: two rows and one composed row give the same text |
| `LockToken.PlainRegistriesAreDetermined` | `Backtest/LabelFunctions.hpp:735-752` | for keys without colons that do not start with a digit and numeric class counts, the hashed text determines the rows (if and only if) |
| `LockToken.TargetsAreDetermined` | `Backtest/LabelFunctions.hpp:89-111` | the thirteen rows of the label table are such rows, so no other plain registry shares their text |
| `SkillGate.Argmax` | `Backtest/BacktestEngine.hpp:2345-2350` | the first class of the largest probability |
| `SkillGate.ClassCountsMulticlass` | `Backtest/BacktestEngine.hpp:2332-2356` | per-class totals and hits of the argmax predictions |
| `SkillGate.ClassCountsBinary` | `Backtest/BacktestEngine.hpp:2358-2370` | the same for thresholded predictions |
| `SkillGate.LabelClassCounts` | `Backtest/BacktestEngine.hpp:2256-2275` | the floor's histogram and its total are those of the finite, non-neutral population |
| `GateMeaning.TruthMeaning` | `Backtest/BacktestEngine.hpp:2332-2370` | a binary label is of class one above a half; a multiclass label is rounded half up |
| `GateMeaning.TotalIsTheNumber` | `Backtest/BacktestEngine.hpp:2332-2356` | a class total is the number of samples of the class |
| `GateMeaning.CorrectIsTheNumber` | `Backtest/BacktestEngine.hpp:2332-2356` | its hits are the number of those predicted right |
| `GateMeaning.BinaryHitsAreTheNumber` | `Backtest/BacktestEngine.hpp:2358-2370` | binary hits in terms of labels, predictions and the threshold |
| `GateMeaning.PredictionIsTheFirstLargest` | `Backtest/BacktestEngine.hpp:2345-2350` | the prediction of a row of the flat table is its first largest probability |
| `GateMeaning.PopulationIsTheFilter` | `Backtest/BacktestEngine.hpp:2256-2275` | the population of the floor is, in order, the finite labels that are not neutral |
| `GateMeaning.InTableIsTheNumber` | `Backtest/BacktestEngine.hpp:2256-2275` | the histogram's total is the number of values with one of the sixteen classes |
| `SkillGate.BalancedAccuracy` | `Backtest/BacktestEngine.hpp:2381-2396` | the mean recall over occurring classes, and each recall |
| `SkillGate.BalancedBaseline` | `Backtest/BacktestEngine.hpp:2228-2239` | one over the occurring classes, uniform when fewer than two |
| `GateMeaning.BalancedIsTheMean` | `Backtest/BacktestEngine.hpp:2381-2396` | the score times the number of occurring classes is the sum of their recalls, hits over total |
| `GateMeaning.FloorIsOneOver` | `Backtest/BacktestEngine.hpp:2228-2239` | the floor is one over the classes that occur among the first sixteen, or over all classes of the task where fewer than two do |
| `SkillGate.ConstantScore` | `Backtest/BacktestEngine.hpp:2381-2396` | a one-class predictor scores exactly one over the occurring classes, or zero, whatever the skew |
| `SkillGate.ConstantIsRefused` | `Backtest/BacktestEngine.hpp:2010-2020` | on the floor's own population it meets the floor exactly and is refused |
| `SkillGate.PassingNeedsTwoClasses` | `Backtest/BacktestEngine.hpp:2010-2020` | a model that beats the floor of its population gets samples of at least two classes right |
| `SkillGate.OccursExactly` | `Backtest/BacktestEngine.hpp:2332-2356` | a class total is positive if and only if some label has the class |
| `FoldGate.MeanOverFolds` | `Backtest/BacktestEngine.hpp:3200-3211` | the mean of the counted folds, zero when none is counted |
| `FoldGate.ConstantRefusedExactly` | `Backtest/BacktestEngine.hpp:2010-2020` | for every list of folds and every class, a predictor of that class alone is refused if and only if its shares of the folds sum to at most the folds over the classes of the whole: a condition on the labels |
| `FoldGate.FullFoldsRefuse` | `Backtest/BacktestEngine.hpp:2010-2020` | it is refused whenever every fold holds as many classes as the whole population |
| `FoldGate.ConstantCanPassFolds` | `Backtest/BacktestEngine.hpp:3200-3211` | five hundred accepted samples of three classes, a raw gap of two and four counted folds of a hundred: a predictor of one class scores one half and passes a floor of one third |

## Left out

- Floating point: metrics, prices and label parameters are real numbers; nothing is claimed about rounded doubles. The square root of the rolling deviation is a parameter.
- Hardware memory order: the interleaving theorems (StaleGrants, SubmitQueue) use sequentially consistent steps; a ring or a queue is a bounded FIFO of arbitrary capacity, its cached indices are not modelled.
- Counters of 32 and 64 bits (trips, fills, drops, ring-full events) do not wrap in the model.
- Composer side effects: trade-log records, the GUI drag ring, the published money pack, the snapshot save, notifications and log lines; the mark-to-market sum of open positions is an input of the compose.
- Ledger seeding in the middle of a trade zeroes pending nets; conservation is stated from an empty ledger, and per run from any ledger.
- Fill quantity and price, take-profit and stop-loss prices of commands, prediction stamps and client identifiers do not enter the books or the pump's quantities and are not carried.
- The slow path is its two loads of the kill word, the gate push and the grant; what the strategy wants, the warm-up and strategy conditions are a nondeterministic choice.
- Labeler: every data row loads and each file is already sorted; the sort check, the per-target counters, the degenerate-label warning and the fallback for an unknown label are not modelled. The streaming theorem is for leaves without a look-back, whose context the window drops by design.
- Feature reach is a parameter of the purge gap; the wall-clock sample period feeds only that parameter.
- FillLedger.Composer.PopAndApply: the paired trade-row record and its emission are not carried.
- FillLedger.Composer.FillRingsApply: the audit and calibration funnels drained at its end are not carried.
- FillBooking.BoundedFlowConserves: a sufficient bound only, easy to check; the exact condition is ExactBooks.BooksAreExactExactly.
- FillBooking.NodeRunConserves: under the fitting condition that ExactBooks.BooksAreExactExactly characterises; the unconditional law is ExactBooks.IntegersAlwaysConserve.
- FillBooking.AllClosedMeansNothingOpen: likewise; the unconditional form is ExactBooks.IntegersCloseOut.
- LedgerTotals.ClearFlagMeansRunsFit: one direction, between two cycle tails; both are ExactBooks.FlagExactly, and whole runs are MoneyFlag.NoReportExactly.
- LedgerTotals.ClearFlagConserves: for bookings none of which saturates; what silent reports give is MoneyFlag.SilenceConserves.
- LedgerTotals.NodeTotalsAreSums: likewise; the unconditional form is ExactBooks.IntegerTotalsAreSums.
- KillMachine.KillSwitch.ApplyResets: the drift latch that the same loop re-arms is not carried.
- KillMachine.KillSwitch.ApplyGlobalTrips: the marker row written per lane is not carried.
- KillMachine.KillSwitch.EvaluateNodes: the mark-to-market sum over open positions is an input.
- KillMachine.KillSwitch.ComposeAndKillEval: drag commands, the published pack and the save request are not carried.
- EventPump.Pump.HandleEvent: the take-profit, stop-loss, strategy and prediction fields of a command are not carried.
- EventPump.Pump.DrainEventsAndSubmit: likewise, and the entry stamps it writes.
- BatchLabeler.ComputeLabelsBatch: the sort refusal and the per-target counters are not carried.
- Compaction.CompactedGapSpans: a lower bound; the exact statement is CompactedGap.RawGapKeptExactly.
- StaleGrants.StaleGrantPersists: about the permission alone; what the entry gate does is AtMostOneOpenGate, OpenGatesDieWithThePeriod and OpenGatesBoundedExactly.
- StaleGrants: the clock never runs backwards (the code reads a system clock and takes a negative age as zero), and the lazy switch and the force period do not change within a run; a price that moved, which forces a full rebuild, is a nondeterministic choice.
- StaleGrants.AtomicCyclesNeverGrantStale: the slow path's grant; the backtest's own warm-up grant reads no word and is counted beside it (WarmupIgnoresKill).
- EventPump.EntryLegsAddUp: one intended quantity for both events. The slow path rewrites that field while the drainer reads it once per event, so legs of two events that straddle a rewrite need not add up.
- MoneyFlag: the composer thread's bit. Slow paths and the producer have bits of their own and book nothing; other money operations of the thread (the kill evaluation among them) are inputs that may raise the bit, the division-by-zero bit is not carried, and the paper reset after a compose is not part of a run.
- SubmitQueue.Adapter.Init: the successful one-worker initialisation; the failed one is the Failed start of the runs.
- SubmitQueue.Adapter.WorkerStep: the exchange call, its result fields, a missing callback and the idle spin are one report step.
- BatchLabeler.Cell: a sample past its window falls back in the specification; InWindow shows the case does not arise in the walk.
- Compaction: the label kind is one of three filters; allocation failure is not modelled.
- ConfigText: binary fixed-point, floating-point and text fields, WARN lines and buffer truncation; clamp bounds are money values. cfg_assign_field and cfg_diff_field convert a default through a double.
- SubmitQueue: one worker, as the engine starts it.
- LockToken.HeldOutSplit.Relock: the seed is a parameter where the code mixes the clock and the sample count.
- LockToken.NearbySplitsSeparate: for records that differ in one byte; no 128-bit token separates all records.
- Training and prediction with XGBoost, class weights, model files, strategy code, sweeps, statistics, the user interface, networking, licensing and boot code.
- Fingerprint of the feature look-backs and versions: their byte texts are parameters.
