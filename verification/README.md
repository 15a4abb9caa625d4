# A model of the trading autopilot

The repository watches prediction markets, turns price shifts into signals, and, when allowed to, into orders.
This project models the parts of it whose correctness is not visible in any single function, and proves what they
promise. To check it: `dafny verify dfyconfig.toml`.

| file | what it models |
|---|---|
| `Validation.dfy`, `OrderStatistics.dfy` | permutation tests with Benjamini-Hochberg control, against the step-up procedure of Benjamini and Hochberg (1995) |
| `LiveRouter.dfy`, `RouterConcurrency.dfy`, `KillSwitchRace.dfy`, `PaperRouter.dfy` | the risk-gated router, its kill switch, their calls interleaved, and the paper router it should agree with |
| `OrderStore.dfy`, `Reconcile.dfy`, `PilotRuns.dfy`, `AutoPilot.dfy`, `PendingHistory.dfy`, `SweepStarvation.dfy`, `StarvationRun.dfy` | the attempt log and its pending query, the bounded reconcile loop, whole runs of submissions, sweeps and results, the methods behind them, and what the query sees over such runs |
| `Ingestion.dfy`, `Recovery.dfy`, `Replay.dfy` | the raw-event ledger, gap detection, backfill, the runbook that chains them, and deterministic replay |
| `Percentiles.dfy`, `Tokens.dfy`, `AssetPicker.dfy` | market selection |
| `PolySecret.dfy`, `Nonces.dfy`, `RankShift.dfy`, `Pricing.dfy`, `Backoff.dfy`, `MarketStream.dfy` | the secret codec, nonce allocation, the signal machine and its order keys, limit prices and base units, retry delays, the reconnect loop |
| `Sequences.dfy`, `Sorting.dfy`, `Text.dfy`, `FixedWidth.dfy` | counting, permutations and orders; Go's sort; Go's strings; 64-bit wrap-around |

Conventions. A `float64` is a `real`; where the code tests for NaN and infinities (`Pricing`) they are a value of
their own. Times are nanoseconds. Go's sorts are known by their contracts only: `sort.Slice` gives some sorted
permutation, so a result that is proved unique does not depend on how ties are broken, and `sort.SliceStable` the one
that keeps the order of ties. Code that changes state in place is a class or a loop, proved equal to a function of the
old state; the properties are proved about those functions. The exchange, the clock, the database's failures,
cancellation and the scheduler are arbitrary: they are parameters, scripts of answers, or events that may come in any
order.

## What the proofs found

* The kill switch has its own lock. A `Submit` that has read the switch can still accept after a breaching
  `RecordPnL` has fired it and returned, if the PnL has recovered meanwhile (`AcceptedAfterBreachReturned`). This
  happens exactly when that `Submit` was in flight at the moment of the firing, is the first to end after it, and had
  read values that let its order pass (`AcceptedAfterTriggerExactlyWhen`), so for at most one order until a reset
  (`AtMostOneLateAcceptance`). No order is ever accepted while the loss exceeds the cap (`NoAcceptanceInBreach`), and
  every `Submit` that starts after the switch fired is rejected until a reset (`RejectedUntilReset`).
* The pending query compares stored statuses literally, the loop normalises them. They are complements exactly on
  statuses in normal form or not terminal at all (`FiltersComplement`). The loop writes normal forms only; the first
  record of a posted order keeps the exchange's spelling (`OnlyFirstRowsAreRaw`). A finished order is still pending
  exactly when the row that finished it is not in normal form (`FinishedOrderPendingExactlyWhen`), and then for ever
  (`RawTerminalRowStaysPending`): an order that the exchange at once reports as `Filled` is one (`FilledOrderIsPending`).
* A sweep covers all pending orders exactly when they are no more than its limit (`QueryCoversAllExactlyWhen`). It
  takes the newest first and moves what it reconciles to the top: after a full sweep the next query names the same
  orders exactly when the sweep has finished none of them (`SweepRepeatsExactlyWhen`). As long as that is so and no
  order is added, every other open order gets no further row and stays pending (`StarvedOrdersStayStarved`). This
  happens, for example with a limit of 1 and two live orders (`StarvationHappens`).
* The text that a replay hashes is independent of the unstable sort exactly when, for any two events with the same
  sequence and id, it does not matter which is written first (`TextIndependentOfTies`); events of one ledger always
  meet this.
* `NextBackoff` shifts and multiplies in int64. With the default policy it follows its formula up to attempt 35 and at
  eight attempts after that; at all others, from 36 on, the delay is zero or negative and the reconnect loop, which has
  no attempt limit by default, does not wait (`DefaultPolicyExactlyWhen`).
* A failed subscription never reaches the reconnect limit by itself (`Stream`).
* The reconcile delays follow their formula exactly when neither the base delay nor the cap overflows on doubling, or
  the cap is at most the 200ms that an overflow falls back to (`DelaysFollowExactlyWhen`).
* `FillGaps` loops for ever on a gap that ends at the largest int64 (`CountingLoopEnds`); the detector never returns
  one.
* Recovery is complete exactly when no event of the ledger already carries the id `backfill-n` of a missing number
  (`RecoveryIsComplete`); a second recovery adds nothing either way.
* The live and the paper router agree on a trace exactly when the paper router never accepts one key twice
  (`PaperLiveParity`).
* The in-process nonce counter always starts from the configured number; nothing reads back what its persist callback
  stores. So two lives of it hand out that number twice, persistent or not (`SameSeedReuses`), and in general share a
  nonce exactly when each starts below where the other ends (`LivesShareExactlyWhen`). The branch that builds it
  (`cmd/worker/main.go:429`, without a callback) is taken only without a state store, and `main` always passes one
  (`cmd/worker/main.go:52`, `:73`); the shared database row it then uses never repeats a nonce (`NonceNeverReused`).
* The autopilot submits every order with data age 0 (`internal/runtime/autopilot.go:265`), so the stale-data cut-off
  makes no difference there (`StaleCutoffIsInert`).

## Model

| member | source | states |
|---|---|---|
| Validation.PValueIsSmoothedShare | internal/execution/validation.go:48-61 | (n + 1) times the p-value is one more than the number of placebo runs with a metric >= the observed one, and the p-value is 1 without placebo runs |
| Validation.EmpiricalPValue | internal/execution/validation.go:48-61 | the counting loop computes (1 + number of placebo metrics at least as large) / (1 + number of them), and 1 without placebo runs |
| Validation.QBetweenPAndOne | internal/execution/validation.go:63-103 | p <= q <= 1 for every hypothesis |
| Validation.QMonotone | internal/execution/validation.go:63-103 | raising p-values anywhere never lowers any q-value |
| Validation.QPermutation | internal/execution/validation.go:63-103 | a q-value depends only on its own p-value and the multiset of all p-values |
| Validation.QIsLeastScaled | internal/execution/validation.go:81-96 | over any ascending order of the p-values, a q-value is at most p_(k)·m/k at every rank k from the hypothesis's own on, and equals one of these or 1 |
| Validation.SuffixMinIsQ | internal/execution/validation.go:73-102 | for every way of sorting, the suffix minimum of min(1, p_(j)·m/j) from a hypothesis's rank on is its q-value, which is defined without sorting |
| Validation.ScatterIsQ | internal/execution/validation.go:73-102 | whichever order the sort leaves ties in, scattering the suffix minima back by index gives the vector of q-values |
| Validation.QBelowAlphaIsStepUp | internal/execution/validation.go:35-43 | for alpha <= 1, q < alpha selects exactly the hypotheses up to the p-value at the largest rank k with p_(k)·m/k < alpha, the quotient written out |
| Validation.AboveLevelOne | internal/execution/validation.go:35-43 | above level 1 every hypothesis is selected |
| Validation.BenjaminiHochberg | internal/execution/validation.go:63-103 | sort with indices, scale, backward running minimum and scatter: returns the q-values at their original indices |
| Validation.RunningMinimum | internal/execution/validation.go:92-96 | the in-place backward pass turns rank rates into suffix minima |
| Validation.EvaluatePermutation | internal/execution/validation.go:12-21 | a single test has q = p and is significant exactly when p < fdrQMax |
| Validation.EvaluatePermutationSet | internal/execution/validation.go:23-46 | each hypothesis gets its own p-value (its placebo runs, or none if missing), its q-value and significance q < fdrQMax |
| Validation.SetSignificanceIsSingleSignificance | internal/execution/validation.go:12-46 | significant within a set implies significant on its own |
| Validation.RaisingMetricsNeverRaisesQ | internal/execution/validation.go:23-103 | raising observed metrics never raises any hypothesis's q-value |
| Validation.PermutingHypothesesPermutesQ | internal/execution/validation.go:23-103 | permuting hypotheses together with their placebo runs permutes the q-values |
| OrderStatistics.OrderStatistic | internal/execution/validation.go:77-96 | in sorted data the value at 0-based rank j is at most v exactly when more than j values are |
| LiveRouting.BookingKeepsBalance | internal/execution/live_router.go:83-104 | accepting an order keeps exposure = sum of accepted notionals per market, cluster exposure = sum over the orders for the cluster's markets, keys accepted once, caps respected |
| LiveRouting.BooksAreOrders | internal/execution/live_router.go:86-104 | in balanced books the exposure of a market or a cluster is the summed notional of the orders accepted for it, clusters read off MarketCluster, and within its cap |
| LiveRouting.TotalAfterBooking | internal/execution/live_router.go:92-103 | a booking moves the total over the markets that belong to one cluster by the notional and no other; a market belongs to the cluster it is mapped to, or to one of its own name |
| LiveRouting.AcceptedExactlyWhen | internal/execution/live_router.go:50-105 | the exact acceptance condition over the orders accepted so far, free of the order of the gates: switch open, loss within its cap, order complete, market and country allowed, compliant, fresh, key never accepted, the notionals with this order within the caps |
| LiveRouting.FirstClosedGateNames | internal/execution/live_router.go:50-99 | a rejection names the first of the ten conditions that fails |
| LiveRouting.LiveRouter.Submit | internal/execution/live_router.go:50-105 | verdict of the first failing gate; an accepted order is booked, a rejected one changes nothing; the balance invariant is kept |
| LiveRouting.LiveRouter.AddPnL | internal/execution/live_router.go:107-111 | the locked step of RecordPnL adds to the day's PnL and reports a breach |
| LiveRouting.LiveRouter.RecordPnL | internal/execution/live_router.go:107-116 | undisturbed, it records the PnL and latches the switch exactly on a breach |
| LiveRouting.KillSwitch.Trigger | internal/execution/kill_switch.go:15-20 | latches with the given reason |
| LiveRouting.KillSwitch.Reset | internal/execution/kill_switch.go:22-27 | clears the latch and the reason |
| RouterConcurrency.ReachableBooks | internal/execution/live_router.go:50-116 | in every reachable state of the interleaved system the books balance and dayPnL is the sum of everything recorded |
| RouterConcurrency.NoAcceptanceInBreach | internal/execution/live_router.go:60-62 | no order is accepted while the recorded loss exceeds the cap, before the trigger fires or after a reset |
| RouterConcurrency.RejectedUntilReset | internal/execution/live_router.go:54-59 | after a breaching RecordPnL returned or a manual trigger, every Submit that starts before a Reset is rejected whatever becomes of the PnL |
| RouterConcurrency.LateAcceptanceBeganEarlier | internal/execution/live_router.go:50-62 | an acceptance after the switch fired is a Submit that read the switch before, and then the cap is not breached |
| RouterConcurrency.AcceptedAfterTriggerExactlyWhen | internal/execution/live_router.go:50-62 | after a firing and before a Reset, a Submit ends in an acceptance exactly when it was in flight at the firing, nothing has ended since, and what it had read then lets its order pass |
| RouterConcurrency.AtMostOneLateAcceptance | internal/execution/live_router.go:50-62 | between a firing and the next Reset at most one order is accepted |
| RouterConcurrency.BreachOwesTrigger | internal/execution/live_router.go:107-116 | every breaching RecordPnL has fired the trigger or still owes it |
| RouterConcurrency.OwingMeansBreach | internal/execution/live_router.go:107-116 | a RecordPnL that still owes the trigger has left the loss above the cap and has not fired since |
| KillSwitchRace.AcceptedAfterBreachReturned | internal/execution/live_router.go:107-116 | a concrete run in which an order is accepted after a breaching RecordPnL returned, without a reset |
| PaperRouting.PaperRouter.Submit | internal/execution/paper_router.go:28-43 | the paper verdict and the exposure after it |
| PaperRouting.PaperRouter.RecordPnL | internal/execution/paper_router.go:45-50 | adds the PnL and latches the halt on a breach |
| PaperRouting.PaperAcceptsExactlyWhen | internal/execution/paper_router.go:28-50 | over a trace, the paper router accepts exactly when the order names a key and a market and has a positive notional, the market stays within its cap, and the recorded loss has never exceeded its own |
| PaperRouting.PaperLiveParity | internal/execution/paper_router.go:28-50 | with equal limits and routable orders the verdicts agree on a whole trace exactly when accepted paper keys are fresh, and then exposure, PnL and halted state are equal |
| OrderLog.FiltersComplement | internal/persistence/store.go:20 | SQL filter and terminal test are complements exactly on statuses in normal form or not terminal |
| OrderLog.NormalizeNormalizes | internal/runtime/autopilot.go:442-444 | normalising a status is idempotent |
| OrderLog.NormalizedIsLowerCore | internal/runtime/autopilot.go:442-444 | a normalised status is the text without the white space at both ends, letter by letter in lower case |
| OrderLog.PendingOrdersDistinct | internal/persistence/store.go:20 | an order appears in the pending query at most once |
| OrderLog.QueryCoversAllExactlyWhen | internal/persistence/store.go:20 | the query names every pending order exactly when there are no more of them than its limit |
| OrderLog.OrderStore.ListPending | internal/persistence/store.go:196-218 | all pending rows newest first, or the newest `limit` of them (50 when the limit is not positive) |
| OrderLog.OrderStore.SaveOrder | internal/persistence/store.go:147-169 | appends exactly one row or, on error, none |
| Backoff.NextReconcileDelayExact | internal/runtime/autopilot.go:466-475 | one step is min(2·current, max) exactly when the doubling fits an int64 or the cap is at most 200ms |
| Backoff.DelayDoubles | internal/runtime/autopilot.go:466-475 | the step in full: doubled, or 200ms where that is not positive or overflows, up to a positive cap |
| Backoff.DelaysFollowExactlyWhen | internal/runtime/autopilot.go:351 | every reconcile wait follows the formula (base first, then min(base·2^k, max)) exactly when neither base nor max overflows on doubling, or max is at most 200ms |
| Backoff.NthDelayClosedForm | internal/runtime/autopilot.go:466-475 | under that condition the k-th wait is min(base·2^k, max) for k >= 1 and base for k = 0 |
| Reconciling.ReconcileContract | internal/runtime/autopilot.go:338-425 | one call on an open order, over the exchange's raw answers: a status is read in normal form or as "unknown" when blank; at most maxAttempts GetOrder calls, asking again after 425, 429, 5xx or a status that is not terminal; cancelled exactly when a due wait is cancelled, failed exactly when a due save fails, otherwise ended by its one closing record, which is the terminal status, reconcile_pending or reconcile_error by the last answer; writes the statuses read without consecutive repeats and waits the scheduled delays |
| Reconciling.WrittenStemFromAnswers | internal/runtime/autopilot.go:379-396 | each word a call writes is one of its own two, or "unknown" for a blank answer, or the normal form of an answered status |
| Reconciling.TerminalAnswerCloses | internal/runtime/autopilot.go:379-402 | an open order whose first answer is terminal gets exactly that status recorded, and the call is over after one GetOrder |
| Reconciling.EndsOnItsWord | internal/runtime/autopilot.go:358-418 | a finished loop ends on the terminal status it saw last, on reconcile_pending after a status that is not terminal, on reconcile_error after an error |
| Reconciling.OutcomeIsDetermined | internal/runtime/autopilot.go:352-425 | which attempts are consulted, how the call ends and how often it waits, as iffs on the answers, saves and waits; undisturbed it closes after calls - 1 waits |
| Reconciling.WritesObservations | internal/runtime/autopilot.go:353-425 | apart from the loop's own closing word, what is written are the observed statuses with consecutive repeats removed, starting from the current status, also when a save fails (then without the lost one) |
| Reconciling.ClosesOnce | internal/runtime/autopilot.go:353-425 | a finished loop writes exactly one closing record (terminal, reconcile_pending or reconcile_error), last |
| Reconciling.WaitsAreDelays | internal/runtime/autopilot.go:351-425 | the waits are the successive delays of the schedule |
| Reconciling.WritesNormalForms | internal/runtime/autopilot.go:338-453 | every status the loop writes is in normal form, so the SQL filter judges it as the loop does |
| Reconciling.TerminalEndsReconciliation | internal/runtime/autopilot.go:338-425 | a blank order id or a terminal status ends a call before it asks anything, and a terminal status is the last thing written |
| PilotRuns.StepKeepsInvariant | internal/runtime/autopilot.go:174-334 | every event of a run keeps: balanced books, posted orders = accepted orders, nothing after a terminal row, rows with order ids stem from posted signals |
| PilotRuns.SweepKeepsAbsorbing | internal/runtime/autopilot.go:174-196 | reconciling a stale snapshot row by row still appends nothing after a terminal row |
| PilotRuns.NothingFollowsTerminal | internal/runtime/autopilot.go:174-196 | over whole runs, whatever the exchange answers, no row follows an order's terminal row |
| PilotRuns.PostedIsExposure | internal/runtime/autopilot.go:255-334 | over whole runs the notional posted per market equals the router's exposure, market and cluster caps hold of what was posted, every accepted order is posted once and in order |
| PilotRuns.AcceptedInRunExactlyWhen | internal/runtime/autopilot.go:255-282 | over whole runs an order is posted exactly when no trigger or breaching result has come since the last reset, the loss is within its cap, and the order passes the other gates on top of what was posted before |
| PilotRuns.PostingIsRecorded | internal/runtime/autopilot.go:284-326 | an accepted order leaves the row "failed" for an error or a rejection, "submitted" for a blank status, otherwise the answered status, and then what reconciling from that status writes |
| PilotRuns.FailedPostingIsFinal | internal/runtime/autopilot.go:284-326 | a failed posting leaves exactly one row, "failed", and is not asked about |
| PilotRuns.SweepWritesEachOrder | internal/runtime/autopilot.go:174-196 | a sweep records for each of its orders what reconciling it alone would, as long as no save was lost before it, otherwise nothing |
| PilotRuns.SwitchIsLatched | internal/execution/live_router.go:107-116 | over whole runs the switch is on exactly when a trigger or a breaching result came after the last reset |
| PilotRuns.PendingRowsWerePosted | internal/runtime/autopilot.go:255-334 | a row in a pending query names the exchange order that a posting of its signal was answered with; blocked orders never appear |
| PilotRuns.StaleCutoffIsInert | internal/runtime/autopilot.go:265 | the verdict on what the autopilot submits does not depend on the stale-data cut-off |
| PendingHistory.OnlyFirstRowsAreRaw | internal/runtime/autopilot.go:296-334 | over whole runs every row of an order but its first is in normal form |
| PendingHistory.FinishedOrderPendingExactlyWhen | internal/persistence/store.go:20 | in every reachable state a finished order is still pending exactly when the row that finished it is not in normal form |
| PendingHistory.RawTerminalRowStaysPending | internal/persistence/store.go:20 | such a row is pending in every later state of the run |
| PendingHistory.FilledOrderIsPending | internal/runtime/autopilot.go:296-324 | a concrete run: an order answered with "Filled" is finished and pending |
| SweepStarvation.SweepRepeatsExactlyWhen | internal/runtime/autopilot.go:174-196 | after a full sweep, lost saves and cancelled waits included, the next query names the same orders exactly when the sweep has finished none of those it got to |
| SweepStarvation.StarvedOrdersStayStarved | internal/runtime/autopilot.go:174-196 | over whole runs: as long as no order of a full query is finished and none is added, every later query names exactly those orders, and an open order outside them gets no row and stays pending |
| StarvationRun.StarvationHappens | internal/runtime/autopilot.go:174-196 | a concrete run with a sweep limit of 1 and two live orders meets this |
| AutoPiloting.AutoPilot.Loop | internal/runtime/autopilot.go:349-425 | the loop over status and delay does what the reconcile function says and appends exactly its statuses |
| AutoPiloting.AutoPilot.ReconcileOrder | internal/runtime/autopilot.go:338-425 | skips blank ids and terminal statuses, otherwise runs the loop from the normalised status |
| AutoPiloting.AutoPilot.ReconcilePendingOrders | internal/runtime/autopilot.go:174-196 | a sweep is one Sweep event of the run model over the pending query's answer |
| AutoPiloting.AutoPilot.ExecuteSignal | internal/runtime/autopilot.go:255-334 | one signal is one Execute event of the run model: blocked record, or booking, posting, record and first reconciliation |
| Ingestion.AllWrittenMembers | internal/ingestion/raw_writer.go:31-50 | writing a batch adds exactly the events whose ids the ledger lacks |
| Ingestion.MemoryRawWriter.Write | internal/ingestion/raw_writer.go:31-50 | an error exactly for an empty id or a zero time; otherwise stored, as the last event, exactly when no event has its id |
| Ingestion.MemoryRawWriter.Get | internal/ingestion/raw_writer.go:52-61 | finds an event exactly when its id was stored |
| Ingestion.MemoryRawWriter.List | internal/ingestion/raw_writer.go:63-73 | the stored events in the order of writing |
| Ingestion.GapsOfIsGapList | internal/ingestion/gap_detector.go:28-42 | the scan's gaps are exactly the missing numbers, as ascending separate runs between present numbers, none reaching the largest int64 |
| Ingestion.DetectSequenceGaps | internal/ingestion/gap_detector.go:10-43 | for any events, duplicates and non-positive numbers included, the gap list of the positive numbers present |
| Ingestion.AllFillsIsFill | internal/ingestion/backfill.go:8-28 | on a detector's output the fill is one event per missing number, in order, and nothing else |
| Ingestion.FillGaps | internal/ingestion/backfill.go:8-28 | the nested loops end without overflow on countable gaps and append one backfill event per number, with id "backfill-n", the closure payload and the base time or now |
| Ingestion.CountingLoopEnds | internal/ingestion/backfill.go:15-24 | with wrap-around the counting loop ends exactly when the range is empty or stops short of the largest int64 |
| Ingestion.BackfillIDsDiffer | internal/ingestion/backfill.go:15-24 | backfill ids determine their number |
| Recovery.Recover | docs/runbooks/replay-backfill.md:9-10 | detect, fill and persist in sequence |
| Recovery.RecoveredEvents | docs/runbooks/replay-backfill.md:9-10 | recovery keeps every event and adds one backfill event per missing number whose id is free, and nothing else |
| Recovery.RecoveryIsComplete | docs/runbooks/replay-backfill.md:9-10 | the detector finds nothing in the recovered ledger exactly when no foreign event sat on a needed backfill id |
| Recovery.RecoveredRange | docs/runbooks/replay-backfill.md:9-10 | then the positive numbers are exactly min..max and each missing one was added by one event |
| Recovery.SecondRecoveryAddsNothing | docs/runbooks/replay-backfill.md:9-10 | a second recovery, at any time, leaves the ledger unchanged, foreign ids or not |
| Replay.ReplayDeterministic | internal/ops/replay.go:18-49 | clone, sort, collect ids and parts, hash: some result of some correct sort |
| Replay.ReplayAscends | internal/ops/replay.go:22-45 | the ids and the hashed parts are those of the same events in ascending order of sequence, then id |
| Replay.PartIsFields | internal/ops/replay.go:33-40 | a part is id, sequence, source, the three times and the payload, in this order, joined by colons |
| Replay.JoinConcat | internal/ops/replay.go:44 | joining puts the separator between any two neighbours and nowhere else |
| Replay.OrderedIDsAreDetermined | internal/ops/replay.go:18-49 | OrderedIDs is the same for every permutation of any input, ties included |
| Replay.TextIndependentOfTies | internal/ops/replay.go:24-45 | the joined text that is hashed does not depend on tie-breaking exactly when any two events sharing sequence and id can be written in either order with the same result |
| Replay.SortsReadAlike | internal/ops/replay.go:24-45 | two sorts of the same events give the same joined words when the words of ties commute |
| Replay.ChecksumIsDetermined | internal/ops/replay.go:18-49 | when ties commute, in particular when they render alike, the whole result is the same for every permutation |
| Replay.LedgerReplayIsDeterministic | internal/ops/replay.go:18-49 | replays of anything the ledger lists, in any order, are equal |
| Percentiles.FloorIsRankCut | internal/assetpicker/selector.go:226-259 | value >= the sort-and-index floor exactly when its counting rank exceeds 1 - top, for any multiset with ties |
| Percentiles.ComputePercentileFloor | internal/assetpicker/selector.go:226-246 | clamp, sort and index, whichever sort is used |
| Percentiles.FloorAtTheEnds | internal/assetpicker/selector.go:226-246 | the floor is one of the values; for q <= 0 the least, for q >= 1 the greatest |
| Percentiles.ComputePercentileRank | internal/assetpicker/selector.go:248-259 | the share of values not above the given one |
| Tokens.NormalizeTokenIDs | internal/assetpicker/selector.go:202-220 | exactly the trimmed, non-empty ids, without duplicates, in the order of first occurrence |
| AssetPicker.QualifiesByRank | internal/assetpicker/selector.go:72-98 | a valid market becomes a candidate exactly when its volume and liquidity ranks both exceed 1 - topPct of its tier |
| AssetPicker.SelectCandidates | internal/assetpicker/selector.go:41-134 | the tradable markets among the top of their tier by both counting ranks, described by their own data and ranks, best first (score as the sum of the ranks, volume, liquidity downwards, id upwards); all of them or the first MaxMarkets; stable |
| AssetPicker.SelectionIsTopBestFirst | internal/assetpicker/selector.go:41-134 | the selection in terms of the markets alone, defaults included; those left out by the cap score no higher than any kept |
| AssetPicker.SelectionIgnoresInputOrder | internal/assetpicker/selector.go:41-134 | with market ids that identify their markets, the same selection for every permutation of the input |
| AssetPicker.CapGivesPrefix | internal/assetpicker/selector.go:113-131 | for any markets a MaxMarkets cap returns the first k of the uncapped selection |
| AssetPicker.BuildPOLYAssetIDs | internal/assetpicker/selector.go:136-159 | cap k > 0 returns the first k of the uncapped ids, a negative cap all, 0 none |
| AssetPicker.AssetIDsAreDistinctTokens | internal/assetpicker/selector.go:141-156 | the uncapped ids have no duplicates and are exactly the trimmed non-empty tokens of the candidates |
| AssetPicker.SuggestPair | internal/assetpicker/selector.go:161-187 | the first pair within a category in loop order, otherwise the first two distinct tokens, otherwise nothing |
| AssetPicker.FirstRivalsAreSuggested | internal/assetpicker/selector.go:161-180 | the suggestion is the first tokens of the first two candidates of one category (up to case and white space) whose first tokens are non-empty and differ |
| AssetPicker.FirstTokensAreSuggested | internal/assetpicker/selector.go:182-187 | without such candidates it is the first two distinct tokens, or nothing |
| AssetPicker.SuggestionIsTwoOrNone | internal/assetpicker/selector.go:161-187 | two distinct non-empty tokens, or two empty strings exactly when the candidates have fewer than two distinct tokens |
| PolySecret.DecodePolySecret | internal/connectors/polymarket/private_client.go:235-256 | the filter loop and padding feed exactly the prepared symbols to the decoder |
| PolySecret.DecodeEncode | internal/connectors/polymarket/private_client.go:251-255 | decoding inverts padded Base64 encoding for every byte string (section 4 of RFC 4648) |
| PolySecret.FormBegins | internal/connectors/polymarket/private_client.go:228-231 | the first letters are the places in the alphabet of the 6-bit parts of the first 24 bits; a last group of two bytes or one takes three letters or two and is padded with = |
| PolySecret.FormContinues | internal/connectors/polymarket/private_client.go:228-231 | every three bytes take four letters, the rest is the form of the bytes that follow |
| PolySecret.SecretIsRecovered | internal/connectors/polymarket/private_client.go:235-256 | every byte string is recovered from its standard or URL-safe form (sections 4 and 5 of RFC 4648), padded or not, with other characters interspersed |
| PolySecret.SecretAcceptedExactlyWhen | internal/connectors/polymarket/private_client.go:246-255 | a text is accepted exactly when, cleaned and padded, '=' stands only in the last one or two places |
| PolySecret.ReplacedForm | internal/connectors/polymarket/private_client.go:229-231 | the two replacements turn the standard form into the URL-safe one |
| PolySecret.BuildPolyHMACSignature | internal/connectors/polymarket/private_client.go:217-233 | the padded URL-safe form of the MAC of timestamp, method, path and body; an error exactly when the secret does not decode |
| PolySecret.SignatureDecodesToMAC | internal/connectors/polymarket/private_client.go:217-256 | the secret decoder maps a signature back to the MAC |
| Nonces.NoncesCountUp | internal/persistence/store.go:23 | for any processes, seeds and crashes a key's nonces are committed as start, start + 1, ... where start is its numeric row or the first seed, overflow failing instead of wrapping |
| Nonces.NonceNeverReused | internal/persistence/store.go:248-265 | no key is given a nonce twice, not even one lost in a crash; later commits are larger |
| Nonces.RepliesIncrease | internal/persistence/store.go:248-265 | of two callers that get a nonce for the same key the later one gets the larger, whatever happens in between |
| Nonces.RepliesExactlyWhen | internal/persistence/store.go:248-265 | a caller gets a nonce exactly for a key that is not blank, a seed that is not negative and a next number that fits; it is the number in the row or the seed, and the row then holds the one after it |
| Nonces.NumericExactlyWhen | internal/persistence/store.go:23 | a row counts as numeric exactly when it is an optional minus sign and at least one digit |
| Nonces.RuntimeState.AllocateRuntimeNonce | internal/persistence/store.go:248-265 | one atomic upsert; a nonce that is returned is the one just committed for the trimmed key; blank keys and negative seeds refused, negative allocations committed but reported as errors |
| Nonces.TraceCountsUp | cmd/worker/main.go:759-771 | the in-process counter hands out initial, initial + 1, ... (mod 2^64) under every pattern of persist failures |
| Nonces.TraceRepeatsExactlyWhen | cmd/worker/main.go:759-771 | within one life two calls get the same nonce exactly when a multiple of 2^64 nonces lies between |
| Nonces.ResolveNonce | internal/connectors/polymarket/dynamic_order_builder.go:275-290 | resolution succeeds exactly when the provider (or without one the configuration) gives a nonce that is not negative, and returns it |
| Nonces.StoredIsAbove | cmd/worker/main.go:759-771 | with persistence the stored number exceeds every nonce handed out |
| Nonces.LivesShareExactlyWhen | cmd/worker/main.go:752-771 | two lives of the counter share a nonce exactly when each starts below where the other ends |
| Nonces.SameSeedReuses | cmd/worker/main.go:429 | two lives that start from the same configured number hand it out twice, persistent or not |
| Nonces.NewMonotonicNonceProvider | cmd/worker/main.go:752-757 | a negative start is refused, any other gives a counter at that start |
| Nonces.MonotonicNonceProvider.NextNonce | cmd/worker/main.go:759-771 | returns the next number and counts on; a failed persist returns an error and uses none up; what is stored is the number after it |
| RankShift.RankShiftStrategy.OnUpdate | internal/strategy/rank_shift.go:64-135 | the in-place update is one step of the signal machine |
| RankShift.LeaderIsArgmax | internal/strategy/rank_shift.go:72-96 | after any history the leader is the asset with the higher latest price (the first on a tie), and none until both are known |
| RankShift.SignalExactlyWhen | internal/strategy/rank_shift.go:64-135 | over any history an update brings a signal exactly when it makes the other asset the leader by at least the flip spread and the last signal is at least a cooldown ago; the signal in full |
| RankShift.SignalNamesOvertaken | internal/strategy/rank_shift.go:84-134 | a signal names the asset that led before and is now behind by at least the flip spread, with confidence min(spread, 1) |
| RankShift.SignalsAreSpaced | internal/strategy/rank_shift.go:101-105 | whatever the clock does, even running backwards, each signal comes at least a cooldown after every earlier one |
| RankShift.SignalsHaveDistinctKeys | cmd/worker/main.go:611-621 | order keys built from different signals of a run differ, whatever markets they name |
| RankShift.KeyNamesBoth | cmd/worker/main.go:611-621 | a key names the signal and the market, each trimmed, or "unknown" where one is blank |
| RankShift.SignalNeverDuplicate | internal/execution/live_router.go:83-85 | no order made from such a signal, for its asset or a template's market, meets its own key in the router, whatever happens in between |
| Pricing.BestIsExtreme | cmd/worker/pricing.go:86-114 | the best bid (ask) is the highest (lowest) level strictly between 0 and 1, none exactly when there is no such level |
| Pricing.BestBidPrice | cmd/worker/pricing.go:86-99 | the loop over best and found computes the best bid |
| Pricing.BestAskPrice | cmd/worker/pricing.go:101-114 | the loop over best and found computes the best ask |
| Pricing.ChosenPriceIsNearest | cmd/worker/pricing.go:11-138 | the chosen price is the one in the effective range nearest to the mid of the best prices moved by the offset (down to sell, up to buy), or to the fallback where that cannot be had; with the exact mode and refusals |
| Pricing.ChosenPriceInRange | cmd/worker/pricing.go:11-138 | whatever the book, a price comes out exactly when the fallback is a probability and the effective range is not empty, and it lies in that range inside (0, 1) |
| Pricing.ModeExactlyWhen | cmd/worker/pricing.go:11-84 | "dynamic" exactly when a fetched book has a level inside (0, 1) and the shifted mid price lies there too, "static" exactly when dynamic pricing is off; otherwise the clamped fallback is used |
| Pricing.MidIsMiddle | cmd/worker/pricing.go:61-69 | the mid price is equally far from both best prices; a one-sided book has its one side |
| Pricing.SellBelowBuy | cmd/worker/pricing.go:61-83 | with a non-negative offset the sell limit is at most, and the buy limit at least, the clamped mid price |
| Pricing.SizedExactlyWhen | internal/connectors/polymarket/dynamic_order_builder.go:240-262 | an order is sized exactly when its notional is at least half a base unit |
| Pricing.AmountsMatchPrice | internal/connectors/polymarket/dynamic_order_builder.go:240-262 | both amounts are millionths rounded to the nearest, halves up; \|notionalUnits - price·sizeUnits\| < 1, 0 < notionalUnits <= sizeUnits, maker and taker on the sides the direction asks for |
| Pricing.RequestSizedExactlyWhen | internal/connectors/polymarket/dynamic_order_builder.go:171-275 | a request is sized exactly when its price, the override if there is one, is a probability and the notional at least half a base unit |
| Pricing.ChosenPriceYieldsOrder | internal/connectors/polymarket/dynamic_order_builder.go:171-191 | with a chosen price the only request that cannot be sized is one below half a base unit |
| Backoff.NextBackoffExact | internal/connectors/polymarket/ws_market_client.go:303-312 | NextBackoff is min(base·2^attempt, max) exactly when the product fits an int64, or the low 64 - attempt bits of base, read as a signed number and shifted back, are no smaller than max |
| Backoff.NextBackoffInFull | internal/connectors/polymarket/ws_market_client.go:303-312 | the delay for every attempt: the low 64 - attempt bits of base, signed and shifted back, up to max; negative attempts count as 0 |
| Backoff.WrapOfShift | internal/connectors/polymarket/ws_market_client.go:307 | the wrapped product is those low bits, signed and shifted |
| Backoff.BackoffVanishes | internal/connectors/polymarket/ws_market_client.go:303-312 | a base delay that is a multiple of 2^z gives delay 0 from attempt 64 - z on |
| Backoff.DefaultPolicyExactlyWhen | internal/connectors/polymarket/ws_market_client.go:34-40 | the default policy meets the formula exactly up to attempt 35 and at 39, 43, 44, 47, 49, 52, 53 and 55, and waits zero or less at every other attempt |
| MarketStream.Stream | internal/connectors/polymarket/ws_market_client.go:58-126 | the loop over attempt waits as its place in the streak says and gives up exactly when some dial failure comes with maxAttempts rounds since the last session, at the first such; without dial failures it never ends |
| MarketStream.StreakStartsAtSession | internal/connectors/polymarket/ws_market_client.go:72-126 | a streak starts at the last session, or at the first round without one |
| MarketStream.UnreachableGivesUp | internal/connectors/polymarket/ws_market_client.go:72-86 | an unreachable server is tried exactly maxAttempts times |
| Text.LowerTrimIdempotent | internal/runtime/autopilot.go:442-444 | trimming and lower-casing twice changes nothing more |
| Text.TrimSpaceCuts | internal/runtime/autopilot.go:442-444 | trimming cuts the white space off both ends and nothing else |
| Text.SpacesListed | internal/runtime/autopilot.go:442-444 | white space is what unicode.IsSpace lists, code point by code point |
| Text.LettersLowered | internal/runtime/autopilot.go:442-444 | the i-th capital letter becomes the i-th small one, anything else stays |
| Text.FirstDifferenceDecides | internal/ops/replay.go:24-29 | a string is less than another when it is a proper prefix or has the smaller character where they first differ |
| Text.DecimalPlaces | internal/ops/replay.go:33-40 | the k-th place from the right of a formatted number is floor(n / 10^k) mod 10, without leading zeros |
| Text.FormatIntPrefixFree | cmd/worker/main.go:620 | a decimal number ended by a dash can be read back, whatever follows |

## Left out

- Text.ToLower: lower-cases ASCII letters only; TrimSpace knows all of unicode.IsSpace.
- Validation: floating-point rounding, NaN and infinities; the q-values are exact reals.
- LiveRouting: the same for exposures and PnL; the compliance hook is an arbitrary answer carried by each submission.
- LiveRouting.LiveRouter.RecordPnL: stated for a call that nothing interrupts; its two steps are separate events in RouterConcurrency.
- OrderLog.PendingOrdersDistinct: the same need of distinct, increasing times.
- RouterConcurrency.RejectedUntilReset: counts from a Submit's start, because the statement about its end is false (AcceptedAfterBreachReturned; the exact condition is AcceptedAfterTriggerExactlyWhen).
- OrderLog.OrderStore.ListPending: needs rows with distinct, increasing times, as OrderLog.PendingOrdersDistinct does; which of two rows with equal created_at PostgreSQL keeps is not modelled. Record ids and error texts are not modelled.
- PilotRuns: order ids the exchange hands out are new ones and rows are saved at increasing times, as the interleaving properties need; the exchange's answers are otherwise arbitrary. RecordPnL is one event here, not two.
- Reconciling.ReconcileContract: needs the exchange not to report the two words the loop coins itself; a trader that cannot read statuses at all (the loop then returns at once) is not modelled, nor is the parsing of HTTP codes out of error texts.
- PilotRuns.StepKeepsInvariant: handleUpdate, which stores and announces signals before executing them, notifications, telemetry, severity labels and the ticker are not modelled; sweeps and signals are events in any order.
- Ingestion: event payloads are strings and cloning them on the way in and out is invisible for values; the PostgreSQL ledger's ON CONFLICT DO NOTHING is taken to behave like the in-memory writer.
- Ingestion.FillGaps: requires gaps whose counting loop ends, because the code does not end on others (CountingLoopEnds).
- Replay.ChecksumIsDetermined: SHA-256 is an arbitrary function; nothing is claimed about different inputs having different checksums.
- PolySecret: HMAC-SHA256 is an arbitrary function; strings are sequences of Unicode characters, so invalid UTF-8 is not modelled.
- Nonces.NoncesCountUp: no other writer touches the rows; the driver's choice of integer type for the seed parameter is not modelled.
- RankShift.SignalsHaveDistinctKeys: needs clock readings that fit int64 nanoseconds (years 1678 to 2262), the range in which UnixNano is defined.
- RankShift.SignalExactlyWhen: needs clock readings that fit int64 nanoseconds and none that is Go's zero time, which the code uses for "no signal yet".
- RankShift: the signal's label texts beyond the asset, its market links and the extraction of the price from JSON.
- Pricing.AmountsMatchPrice: the amounts are integers; the conversion of sizes of 2^63 units and more to int64 is not modelled.
- Reconciling.AskedAgain: 425 is section 5.2 of RFC 8470, 429 section 4 of RFC 6585; reading the code out of an error text is not modelled.
- MarketStream.Stream: reading, pinging and decoding inside a session; cancellation only cuts the list of rounds short.
- HTTP, WebSocket, Telegram and SQL driver code, order signing, environment parsing, the dashboard API and metrics rendering.
- Feature extraction, linking, risk filters, signal rules, contract configuration and back-testing: single-branch checks and single-pass means.
