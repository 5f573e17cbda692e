# Structure books, replays and recoverable builds: a Dafny model

The repository's operations and research scripts contain protocols, state machines and shortcuts that claim to equal
a simpler form. This project models them and proves what they promise. `dafny verify dfyconfig.toml` checks all of it.

## What is modelled

- **Level lifecycle and its shortcuts** (`Lifecycle`, `LifecycleLaws`, `Compression`, `CompressionScore`,
  `LifecycleFast`): the four-phase fold over completed-second observations with its reaction-prominence score, what it
  says of a sequence of closes in prices, the run-wise elimination of observations, the minimum/maximum shortcuts, and
  the day-by-day history built from persisted rows. The embedded SQL is the semantics: `arrayFold` is a fold, tuples are
  datatypes.
- **Interval tables** (`IntervalIndex`, `SelectionIntervals`, `CanonicalSplits`): run-length encoding of closing
  states, cutting at splits, gaps-and-islands compaction, and one split action per date.
- **Storage migration** (`Migration`, `MigratorProcess`): durable tables, an atomically replaced journal and a log of
  every command, and a process that may die before any effect and is rerun.
- **Managed-breakout replay** (`ReplayModel`, `ReplayAudit`, `ReplayRuns`, `ReplayLaws`, `ReplayMachine`): the step
  function, an independent audit of its journal, whole-run theorems, when exactly each sale, purchase, exit request,
  stop and entry request is written given the inputs and the journal before it, and the class with mutable fields that
  implements it.
- **Baseline and paired exits** (`BaselineOutcome`, `AdaptiveExit`, `AdaptiveLaws`, `PairedCohort`): fixed-horizon
  outcomes, family occupancy, and the stalled-progress exit paired with the same entries.
- **Swing book build** (`CheckpointWrites`, `SwingHistory`, `SwingReads`, `SwingRun`, `SwingLaws`): batch writes that may
  be lost after being applied in part, interval closing, split restatement, the session marker written last, resume, and
  what the finished book says in prices.
- **Market-day certificates** (`PriorState`, `MarketLedger`): write-once units and seeds, and the lookup of the
  indicator state carried across quote-only sessions.
- **Accounting and reductions** (`Equity`, `EquityMeasure`, `MoveCapture`, `MarketSummary`): causal-mark equity
  against naive valuation, and listing-by-listing market summaries against grouping everything at once.
- **Checkpoint cadence** (`CheckpointCalendar`) and **reporting flags** (`ReportingSource`, `ReportingFlags`,
  `ReportingDay`): what a source trade's flags are, the match of source and canonical trades by rank, the daily and
  monthly mutations, and the staged, restartable day.

`Common` holds what several of these share: options, the text order of keys, sorting a set, the effect budget.

Where the source updates an object or loops, the model has a class or a method proved against a specification
function; the theorems are about that function, and what the function does is in turn stated in terms of the inputs,
records and prices alone. A process that can die carries a budget of durable effects; a budget of none means an
uninterrupted run. Hashes stand for what they hash. Main results carry the word "Main" in the table.

## What the proofs found

- `compress_observations` documents itself as exact. It is, for every seed, on role, phase, count and confirmation
  time. On the score it is not: opening an encounter also tests that a range is available, and the grouping code does
  not contain that test, so in the first minutes of a history a dropped contact can carry the range to be frozen
  (`CompressionScore.LostAnchor`), and the history row the build journals then differs from the reference
  (`LifecycleFast.LostRow`). Exactness per run from every seed is characterised by `CompressionScore.RunwiseExactIff`,
  from one seed by `CompressionScore.ExactAtEveryRunIff`; once a completed minute exists it always holds.
- Recovery after a lost response refuses a batch in which some row has been superseded, although a write whose
  response arrives accepts it (`CheckpointWrites.RecoveryStopsIff`). The swing build reaches this: a session that died
  after closing the rows it had restated for a split, and is run again, is stopped by the next lost response
  (`SwingRun.ReopeningStopsIff`, `SwingRun.DiedAfterClosing`).
- A stalled exit need not be strictly earlier than the baseline exit. It is exactly when its quote's time is strictly
  below that of the baseline's exit quote (`AdaptiveExit.PairedExit`). It may fall on the very quote at which the
  baseline's horizon ends, where only the reason differs (`AdaptiveExit.StalledOnHorizonQuote`), and, since quotes may
  share a time, on an earlier quote of the same time, where reason and net differ (`AdaptiveExit.StalledAtTheSameTime`).
- A reconciled day would fail its flag check exactly if a mapped byte carried the unassigned flag pattern 128
  (`ReportingFlags.MutationVerifiesIff`), and the monthly count check would refuse it (`ReportingFlags.CountCheckIff`).
  No source trade has that pattern (`ReportingSource.MetaIsKnown`), so a staged day never fails either check
  (`ReportingDay.FinishedVerifies`, `ReportingSource.MonthlyCountHolds`).
- One monthly mutation is not the daily ones in sequence: a trade between two staged windows is rewritten to regular by
  the month alone. They agree on a row exactly when it lies in a window, outside the month's span, or is regular already
  (`ReportingFlags.MonthAgreesIff`, `ReportingFlags.MonthDiffers`).
- A session whose inputs are published and whose bars are not is refused by every rerun, since a rerun draws a new
  attempt. A session comes to that exactly when the process dies between the two publications or its bars turn out to
  have duplicate keys, a check made after the inputs are published (`MarketLedger.Builder.BuildBars`,
  `MarketLedger.CrashBetweenPublications`).
- The cycle test in the prior-state lookup can never fire; only its length limit can (`PriorState.NeverCyclic`).
- Moving checkpoints off weekends makes some calendar gaps longer than the cadence: exactly those whose first end is
  moved back further than the second (`CheckpointCalendar.CursorGapIsWiderIff`). The event budget holds all the same,
  because none of the cadences leaves four or five days over whole weeks, the exact condition for the estimate of seven
  calendar days for five sessions to be safe (`CheckpointCalendar.EstimateIsSafeIff`).

## Model

| member | source | states |
|---|---|---|
| Lifecycle.StepKeepsInv | scripts/build_structure_book_clickhouse.py:34-48 | One observation, applied to any state satisfying the invariant (phase 0..3, count bound, score consistency), keeps it and leaves the scorer side equal to the role the level now has. What the observation does in prices is stated by the LifecycleLaws rows. |
| Lifecycle.ReachableInv | scripts/build_structure_book_clickhouse.py:34-48 | The invariant holds after any number of observations from a state that has it; in particular the 32-bit counter never passes two. |
| Lifecycle.FoldConcat | scripts/build_structure_book_clickhouse.py:48 | Folding two stretches in turn is folding them as one, so a session boundary is invisible to the machine. |
| LifecycleLaws.MirrorFold | scripts/build_structure_book_clickhouse.py:36-48 | Turning prices, band and role upside down turns the result of the fold upside down, so the laws below, stated for a supporting level, hold of a resisting one. |
| LifecycleLaws.StaysActive | scripts/build_structure_book_clickhouse.py:36-42 | As long as no two closes in a row lie below the band by more than a tick and more than a quarter of their range, an active level stays active with its role and confirmation time, crossed exactly while the last close lies there. |
| LifecycleLaws.BrokenIff | scripts/build_structure_book_clickhouse.py:36-42 | Main: an active level becomes broken exactly at the second of two such closes in a row, and at no other observation; role and confirmation time stay. |
| LifecycleLaws.RetestIff | scripts/build_structure_book_clickhouse.py:37-42 | Main: a broken level waits exactly until the first close back inside the band, which opens a retest; role and confirmation time stay. |
| LifecycleLaws.RetestEndsIff | scripts/build_structure_book_clickhouse.py:38-47 | Main: a retest lasts exactly until the first close more than a tick outside the band. Below it the level turns and is confirmed at that time; above it the level is active again with its old role and confirmation time. |
| LifecycleLaws.TurnsIff | scripts/build_structure_book_clickhouse.py:41 | The role turns at an observation exactly when the level is in retest and the close lies more than a tick below the band. |
| LifecycleLaws.ConfirmedIsLastTurn | scripts/build_structure_book_clickhouse.py:47 | Main: over any observations the confirmation time is that of the last one at which the role turned, and the one before them when it never did. |
| LifecycleLaws.BirthIsIdle | scripts/build_structure_book_clickhouse.py:256 | A level is born active, unscored, without an encounter and confirmed at its birth. |
| LifecycleLaws.NothingScored | scripts/structure_prominence_sql.py:22-26 | While a level stays active, nothing is scored before a close inside the band whose range is positive. |
| LifecycleLaws.EncounterIs | scripts/structure_prominence_sql.py:22-25 | Main: from such a close until the return or the break that ends it, an encounter holds the range it opened with, its best is the largest rise above the band in that range, attained and never negative, and it has departed exactly when that best is at least one. |
| LifecycleLaws.EncounterReturns | scripts/structure_prominence_sql.py:21-25 | The next close inside the band completes a departed encounter with its best, counts it, and opens another when its own range is positive. |
| LifecycleLaws.EncounterBroken | scripts/structure_prominence_sql.py:20 | A break completes the open encounter with its best and counts it if there is one. |
| LifecycleLaws.NothingScoredAway | scripts/structure_prominence_sql.py:20-26 | While broken and in retest nothing is scored; a turn changes only the scored side and forgets the frozen range. |
| Compression.RunLength | scripts/build_structure_book_clickhouse.py:80 | The run split off first is the longest prefix with one code. |
| Compression.CodeIff | scripts/build_structure_book_clickhouse.py:76 | Two observations have the same code exactly when all six comparisons with band, tick and margin answer alike. |
| Compression.FirstMin | scripts/build_structure_book_clickhouse.py:77 | The kept minimum is the first position holding the least price of the run. |
| Compression.FirstMax | scripts/build_structure_book_clickhouse.py:78 | The kept maximum is the first position holding the greatest price of the run. |
| Compression.CodeFixesFlags | scripts/build_structure_book_clickhouse.py:76 | Two observations with the same six-bit code answer contact, beyond, flip, reject and favourable alike, for every role. |
| Compression.KeepLong | scripts/build_structure_book_clickhouse.py:79-81 | Of a run longer than three, the first three come first and something of the rest is always kept, all of it from the run, in order. |
| Compression.KeptAre | scripts/build_structure_book_clickhouse.py:77-81 | Of a run exactly the first three observations, the last, the first lowest and the first highest are kept, each once and in order: at most six. |
| Compression.FourSettle | scripts/build_structure_book_clickhouse.py:68-75 | From every seed, three observations of one code and any fourth leave role, phase, count and confirmation time fixed under that code, whichever fourth is taken: the reason three suffice. |
| Compression.RunKeepsLife | scripts/build_structure_book_clickhouse.py:68-83 | One run reduced to its kept observations gives the same role, phase, count and confirmation time as the whole run, from every seed. |
| Compression.CompressKeepsLife | scripts/build_structure_book_clickhouse.py:68-83 | Main: for every seed and every sequence the reduced observations give the same role, phase, count and confirmation time as all of them. |
| CompressionScore.PeakIsMaximum | scripts/structure_prominence_sql.py:23 | The running best over a stretch is its floor or an attained excursion ratio, and no excursion exceeds it. |
| CompressionScore.KeptPeak | scripts/build_structure_book_clickhouse.py:77-81 | Once the first observation is counted, the kept observations reach the same running best as the whole run. |
| CompressionScore.OutsideRunExact | scripts/build_structure_book_clickhouse.py:68-83 | On a run outside the band the reduction preserves the whole state, score included, from every reachable seed. |
| CompressionScore.ContactFold | scripts/structure_prominence_sql.py:19-27 | What any stretch of contacts does to a reachable state depends only on the first positive range in it. |
| CompressionScore.ContactRunExactIff | scripts/structure_prominence_sql.py:22 | On a run of contacts the reduction is exact for every reachable seed if and only if the kept observations have the same first positive range. |
| CompressionScore.RunwiseExactIff | scripts/build_structure_book_clickhouse.py:68-83 | Run by run, the reduction is exact on the whole state if and only if every contact run keeps the range its encounter would freeze. |
| CompressionScore.CompressExact | scripts/build_structure_book_clickhouse.py:68-83 | Main: when every contact run keeps its range, the reduced sequence gives the identical state, score included, from every reachable seed. |
| CompressionScore.ExactAtEveryRunIff | scripts/build_structure_book_clickhouse.py:68-83 | Main: from any one reachable seed the reduced observations reach the same state at the end of every run if and only if every contact run the level would open an encounter in keeps the range it would freeze. |
| CompressionScore.OpeningsAnchoredExact | scripts/build_structure_book_clickhouse.py:68-83 | ... and then the reduced sequence as a whole gives the identical state from that seed. |
| CompressionScore.PositiveRangesAreAnchored | scripts/build_structure_book_clickhouse.py:240-249 | As soon as every range is positive (a completed minute exists) the condition above holds, so nothing is lost. |
| CompressionScore.LostAnchor | scripts/build_structure_book_clickhouse.py:69-75 | Counterexample to the documented exactness, in any band and from any open: five equal contacts at 10, 20, 30, 61 and 121 seconds, whose first positive range comes fourth, freeze range 1 in full and range 2 when reduced. |
| LifecycleFast.QuietStepKeepsLife | scripts/build_structure_book_clickhouse.py:53-55 | Under either shortcut condition no observation of the session is a contact and each one only resets the counter. |
| LifecycleFast.FastKeepsLife | scripts/build_structure_book_clickhouse.py:51-65 | Main: from every seed both shortcuts and the reduction give the role, phase, count and confirmation time of the full fold. |
| LifecycleFast.ExtremeGivesPeak | scripts/build_structure_book_clickhouse.py:60-61 | Over a favourable session the extreme price alone gives the running best of all its observations. |
| LifecycleFast.AdvancedExact | scripts/build_structure_book_clickhouse.py:60-62 | The closed form for a favourable session equals the full fold on the whole state, including setting the scorer side of a fresh level. |
| LifecycleFast.PendingExact | scripts/build_structure_book_clickhouse.py:63-64 | Resetting the counter alone equals the full fold on the whole state for a session that never touches a level awaiting retest. |
| LifecycleFast.FastExact | scripts/build_structure_book_clickhouse.py:51-65 | Main: with anchored ranges the fast form equals the reference fold on the whole state from every reachable seed. |
| LifecycleFast.LostRow | scripts/build_structure_book_clickhouse.py:251-261 | The same as the build meets it: those five observations are all eligible, and the row it journals for that first session differs from the reference fold. |
| LifecycleFast.EligibleIs | scripts/build_structure_book_clickhouse.py:254-260 | A session's observations are taken exactly when known by its close and at least a second after the level's birth, in their order. |
| LifecycleFast.NextDayMatches | scripts/build_structure_book_clickhouse.py:251-261 | One session advanced from the persisted row of the session before equals one fold over everything since birth. |
| LifecycleFast.BuildHistory | scripts/build_structure_book_clickhouse.py:251-264 | The resumable day loop keeps already journaled rows and makes every row equal the fold over the whole life of the level: always on the four lifecycle fields, entirely when ranges are anchored. |
| CanonicalSplits.Canonical | scripts/build_structure_book_clickhouse.py:87-100 | Succeeds exactly when all ratios are positive and no date has two of them; then each delivered date appears once, in order, as the first delivered of its latest deliveries. |
| CanonicalSplits.DeliveryDoesNotMatter | scripts/build_structure_book_clickhouse.py:87-100 | Consistent deliveries with the same rows, in any order and repeated any number of times, give each date the same ratio. |
| IntervalIndex.StateIsLatest | scripts/build_structure_book_clickhouse.py:291-296 | The state in force at an instant is that of the last close no later than it. |
| IntervalIndex.FactorSteps | scripts/build_structure_book_clickhouse.py:305-316 | The split factor is one before the first split, is multiplied by a split's ratio from its own instant on, and stands still between splits. |
| IntervalIndex.EpisodesKeepState | scripts/build_structure_book_clickhouse.py:297-304 | Dropping closes whose state repeats loses nothing: at every instant the latest remaining close carries the latest close's state. |
| IntervalIndex.CutsAreTheInnerSplits | scripts/build_structure_book_clickhouse.py:305-315 | An episode is cut at exactly the split times strictly inside it, in increasing order. |
| IntervalIndex.BookTiles | scripts/build_structure_book_clickhouse.py:309-316 | The rows of a level follow one another without gap or overlap from its first close to the end of time, each agreeing with the history throughout its interval. |
| IntervalIndex.OnlyLastIsOpen | scripts/build_structure_book_clickhouse.py:305-316 | Of a level's rows exactly the last is open-ended. |
| IntervalIndex.BookAgreesWithHistory | scripts/build_structure_book_clickhouse.py:291-316 | Main: at every instant from the first close exactly one row is valid, carrying the latest closing state and price times every split effective by then; before the first close none is; no interval is empty. |
| SelectionIntervals.SelectedIsInForce | scripts/build_swing_book_v5.py:60-63 | What is selected at an instant is what was selected at the last checkpoint no later than it, and nothing before the first. |
| SelectionIntervals.JoinedSays | scripts/build_swing_book_v5.py:61-63 | Before compaction the selected rows joined to the next checkpoint already say at every instant whether, and how, the level is selected. |
| SelectionIntervals.IslandLength | scripts/build_swing_book_v5.py:64 | An island is a maximal stretch in which each row begins where an equal row before it ends. |
| SelectionIntervals.CompactSays | scripts/build_swing_book_v5.py:65 | Merging islands changes what is said at no instant. |
| SelectionIntervals.CompactIsMaximal | scripts/build_swing_book_v5.py:64-65 | Two adjacent public intervals that touch always differ in geometry; the table is empty only for an empty input and begins where its input begins. |
| SelectionIntervals.PublicTableAgrees | scripts/build_swing_book_v5.py:60-65 | Main: the public table covers an instant exactly when the level was selected at the checkpoint in force, once, with that checkpoint's geometry. |
| Migration.TableDigestInjective | scripts/migrate_structure_checkpoint_storage.py:109-122 | Verifying partition by partition loses nothing: equal table digests if and only if equal relations, with multiplicity. |
| Migration.ProofIsOfOne | scripts/migrate_structure_checkpoint_storage.py:251-256 | A journaled proof, partition by partition or in the older whole-table form, is a proof of one content only. |
| Migration.ReplacedPartition | scripts/migrate_structure_checkpoint_storage.py:227-228 | Dropping one staged partition and inserting its retained rows makes that partition equal to them and leaves every other partition alone. |
| Migration.TornIs | scripts/migrate_structure_checkpoint_storage.py:228 | What an interrupted insert leaves has no row more often than the insert, and can be any such part. |
| Migration.RetainedRows | scripts/migrate_structure_checkpoint_storage.py:51-55 | Of the two tables kept by checkpoint set, a row is retained with its multiplicity exactly when its set is kept; of the other four every row is. |
| Migration.SavedKeeps | scripts/migrate_structure_checkpoint_storage.py:45-48 | An atomic journal write of a sound working state keeps the whole invariant. |
| Migration.CommandKeeps | scripts/migrate_structure_checkpoint_storage.py:137-266 | One database command on one table keeps the whole invariant when it keeps that table's entries and the log's rules. |
| Migration.CreatedKeeps | scripts/migrate_structure_checkpoint_storage.py:188-198 | Creating the replacement table keeps the invariant. |
| Migration.StagedRowsKeep | scripts/migrate_structure_checkpoint_storage.py:227-228 | Dropping a staged partition, or inserting any part of the retained rows, keeps the invariant while the source is still live. |
| Migration.ExchangedKeeps | scripts/migrate_structure_checkpoint_storage.py:244 | Exchanging the tables keeps the invariant once the copy equals the retained rows and the proof is journaled. |
| Migration.DroppedKeeps | scripts/migrate_structure_checkpoint_storage.py:252-262 | Dropping the former source after the exchange keeps the invariant. |
| Migration.InvMeansNoLoss | scripts/migrate_structure_checkpoint_storage.py:137-266 | Main, for every durable state: under its live name each table always holds every row to retain with its multiplicity; it was exchanged at most once and is untouched before that, partitions were dropped only from staging, and only its source was ever dropped. Once all is complete, the two tables kept by checkpoint set hold exactly the original rows of the kept sets, and the other four exactly their original rows. |
| MigratorProcess.Migrator.constructor | scripts/migrate_structure_checkpoint_storage.py:146-156 | A database before its first run satisfies the invariant. |
| MigratorProcess.Migrator.Save | scripts/migrate_structure_checkpoint_storage.py:45-48 | The journal is replaced whole or, if the process dies first, not at all. |
| MigratorProcess.Migrator.InsertStaged | scripts/migrate_structure_checkpoint_storage.py:228 | An insert that is interrupted leaves some part of its rows; one that is not leaves them all. |
| MigratorProcess.Migrator.StageTable | scripts/migrate_structure_checkpoint_storage.py:186-202 | Creates or adopts the replacement, journals its identity, and drops nothing; from a sound state only a failed check of the environment stops it. |
| MigratorProcess.Migrator.CopyPartition | scripts/migrate_structure_checkpoint_storage.py:209-232 | When it finishes, the staged partition equals the retained source partition and no other staged partition changed; it reuses an equal copy. |
| MigratorProcess.Migrator.CopyAll | scripts/migrate_structure_checkpoint_storage.py:208-232 | When copying finishes from a sound state, the staged table holds exactly the retained rows. |
| MigratorProcess.Migrator.ReconcileAndExchange | scripts/migrate_structure_checkpoint_storage.py:233-246 | Reconciles the whole relation, journals the proof, then exchanges; from a finished copy only writers found active stop it, and it drops nothing. |
| MigratorProcess.Migrator.Retire | scripts/migrate_structure_checkpoint_storage.py:247-265 | Drops at most the recorded source, and only with the live table proved equal to the journaled digest, of either format, on the required disk; then journals completion. |
| MigratorProcess.Migrator.MigrateTable | scripts/migrate_structure_checkpoint_storage.py:172-266 | One table from wherever its journal entry left off: a complete entry changes nothing, at most the recorded source is dropped, and from a sound state only the environment raises an error. |
| MigratorProcess.Migrator.Migrate | scripts/migrate_structure_checkpoint_storage.py:137-266 | One run, however it ends, keeps the invariant and stops for no reason but a failed check of the environment (engine, policy, space, quiet writers, placement); uninterrupted and unobjected it finishes; after a finished run a further one changes nothing. |
| MigratorProcess.RecoverAndFinish | scripts/migrate_structure_checkpoint_storage.py:137-266 | Main: any number of runs that die at any effect or are refused by the environment, with any torn insert, followed by one undisturbed run leaves in each of the two tables kept by checkpoint set a row with its original multiplicity exactly when its set is kept, leaves the other four with exactly their original rows and everything else untouched, each table exchanged exactly once. |
| ReplayModel.EnterFrame | scripts/evaluate_managed_breakouts.py:138-163 | Scanning for an entry touches only the pending order, the journal and the block counters. |
| ReplayModel.TargetIs | scripts/evaluate_managed_breakouts.py:142-144 | The target is the lowest lower edge among the candle's resistances that lie above both its close and the level, and zero when there is none. |
| ReplayAudit.SaleKeeps | scripts/evaluate_managed_breakouts.py:48-59 | A sale of the whole position, or of half at the target, keeps the books and the machine in agreement. |
| ReplayAudit.GateMeansFresh | scripts/evaluate_managed_breakouts.py:145-155 | An entry may be requested after an earlier exit only if its own level broke out strictly after that exit. |
| ReplayAudit.QuoteStepKeeps | scripts/evaluate_managed_breakouts.py:70-101 | Any valid quote keeps the invariant: journal legal entry by entry, books equal to the machine, times in order, no order beside a position. |
| ReplayAudit.RowStepKeeps | scripts/evaluate_managed_breakouts.py:103-163 | Any candle keeps the same invariant. |
| ReplayAudit.StepKeeps | scripts/evaluate_managed_breakouts.py:103-165 | Any input no earlier than the last keeps the invariant. |
| ReplayRuns.MergeIsChronological | scripts/evaluate_managed_breakouts.py:103-108 | The two cursors consume exactly the candles before the end and the quotes up to one quote age after it, in time order, a quote before a candle of its own time. |
| ReplayRuns.PlayCompletesIff | scripts/evaluate_managed_breakouts.py:70-73 | A replay completes exactly when no consumed quote is invalid and no consumed candle carries evidence confirmed after it. |
| ReplayLaws.ReplayCompletesIff | scripts/evaluate_managed_breakouts.py:36-39 | Main: a replay completes if and only if candle times rise, quote times do not fall, every quote up to one quote age past the window has a positive bid no higher than its ask, and no candle inside the window names a level confirmed after it. |
| ReplayLaws.ReplayIsStepwise | scripts/evaluate_managed_breakouts.py:103-165 | Each consumed input of a completed replay adds to the journal what the laws below say of it, given the inputs and the journal before it. |
| ReplayLaws.OpenIs | scripts/evaluate_managed_breakouts.py:48-59 | The journal shows a position held from its last purchase exactly until the sales since add up to what was bought. |
| ReplayLaws.NeverOpen | scripts/evaluate_managed_breakouts.py:48-59 | Without a purchase nothing is held. |
| ReplayLaws.StopIs | scripts/evaluate_managed_breakouts.py:123-134 | The stop in force is that of the last stop raised since the purchase, or else the purchase's own. |
| ReplayLaws.FirstAskedIs | scripts/evaluate_managed_breakouts.py:116-122 | The structural exit was first asked for at the first such entry since the purchase, and not at all when there is none. |
| ReplayLaws.ReplaySellsIff | scripts/evaluate_managed_breakouts.py:70-86 | Main: while a position is held, a consumed quote sells if and only if its bid is at or below the stop in force, the window has ended, the exit asked for is due, or its bid reaches a target not sold at yet; it sells for the first of these that holds, and everything held unless that is the target with partial exits, then half. The entry names the time, price after slippage, reason and stop. |
| ReplayLaws.SaleIff | scripts/evaluate_managed_breakouts.py:70-86 | The same after any valid inputs in time order, the quotes no replay consumes included. |
| ReplayLaws.QualityIff | scripts/evaluate_managed_breakouts.py:61-68 | A fill is good exactly when the stop is positive and below the bid, the target above the ask, the stop far enough by ticks and by spreads, the win at the target at least the required multiple of the loss at the stop, both in cash after slippage and two fees, and the spread within its basis points. |
| ReplayLaws.PurchaseIff | scripts/evaluate_managed_breakouts.py:87-101 | Main: while nothing is held, a quote buys if and only if it is the first one a latency after the last request, comes within a quote age of it and before the window ends, and is a good fill; the entry bought carries the request's stop, target and level, the shares and the ask plus slippage. |
| ReplayLaws.HeldCandleIs | scripts/evaluate_managed_breakouts.py:111-135 | Main: while a position is held a candle asks for the structural exit if and only if it has not been asked for and its level fails or the last two closes since the purchase lie below it, and raises the stop if and only if the last three candles touch and dip at a low formed after the purchase that a fresh quote lets through; it writes nothing else. |
| ReplayLaws.FlatCandleIs | scripts/evaluate_managed_breakouts.py:136-163 | Main: while an order waits a candle writes nothing. Otherwise its accepted breakouts are refused one after another, each for the first thing that forbids it, up to the first that nothing forbids, for which an entry is requested a tick below the band with the lowest overhead resistance as target. |
| ReplayLaws.SameLevelIff | scripts/evaluate_managed_breakouts.py:26-30 | Two levels count as one exactly when they share a unified identity, or have none and share both edges. |
| ReplayLaws.RequestsAccounted | scripts/evaluate_managed_breakouts.py:87-163 | Each block counter is the number of journaled refusals of its kind, and every request was bought, expired, refused at execution, or is still pending. |
| ReplayRuns.ReplayInv | scripts/evaluate_managed_breakouts.py:33-171 | Main: every completed replay ends with a journal whose independent audit yields exactly its position, exits and closed trades. |
| ReplayRuns.StopNeverFalls | scripts/evaluate_managed_breakouts.py:123-134 | While a position stays open its entry never changes, its shares never grow and its stop never falls. |
| ReplayRuns.ReplayConserves | scripts/evaluate_managed_breakouts.py:48-59 | Main: each closed trade sold exactly the shares it bought and nets proceeds less cost less one fee for every fill; an open position holds more than zero and at most the bought shares, with no order pending. |
| ReplayRuns.TradesAreTimelyAndFresh | scripts/evaluate_managed_breakouts.py:87-101 | Main: fills come no earlier than decision plus latency, no later than decision plus quote age and before the end; each trade after the first was decided after a breakout of its own level strictly after the previous exit. |
| ReplayRuns.TargetSaleEarns | scripts/evaluate_managed_breakouts.py:61-68 | A purchase that met the reward gate and is sold at or above its target nets at least the required multiple of shares times risk after slippage and both fees. |
| ReplayRuns.ProfitTargetsPay | scripts/evaluate_managed_breakouts.py:61-86 | Main: without partial exits every trade leaving at its profit target nets at least the minimum reward multiple times shares times risk, which is strictly positive. |
| ReplayRuns.JournalIsPast | scripts/evaluate_managed_breakouts.py:103-165 | The journal up to a time is the whole journal of the replay that is given nothing after it. |
| ReplayRuns.Causal | scripts/evaluate_managed_breakouts.py:33-34 | Main: inputs that agree up to a time give identical journal entries up to that time. |
| ReplayMachine.Replayer.Sell | scripts/evaluate_managed_breakouts.py:48-59 | The mutable sale leaves exactly the specified state: cash, shares, journal, and the closed trade when nothing remains. |
| ReplayMachine.Replayer.OnQuote | scripts/evaluate_managed_breakouts.py:70-101 | Refuses an invalid quote without changing anything; otherwise leaves exactly the state the step function gives, of which ReplayLaws.SaleIff and ReplayLaws.PurchaseIff say what is sold and bought. |
| ReplayMachine.Replayer.WatchStructure | scripts/evaluate_managed_breakouts.py:116-122 | Counts closes below the band and asks for a structural exit at most once, as specified. |
| ReplayMachine.Replayer.TrailStop | scripts/evaluate_managed_breakouts.py:123-134 | Raises the stop exactly when a swing low formed after entry allows it. |
| ReplayMachine.Replayer.ScanEntries | scripts/evaluate_managed_breakouts.py:138-163 | The first admissible accepted breakout becomes the order; every one before it is journaled with its reason. |
| ReplayMachine.Replayer.OnRow | scripts/evaluate_managed_breakouts.py:111-163 | One candle leaves exactly the specified state. |
| ReplayMachine.Replayer.Drive | scripts/evaluate_managed_breakouts.py:103-165 | Two cursors moving over mutable state compute the step function folded over the merged stream, including which error stops it. |
| ReplayMachine.Replayer.Run | scripts/evaluate_managed_breakouts.py:33-171 | The whole replay, order checks included, ends with the result of the step function over the merged stream, or its error; the ReplayLaws rows say when it completes and what every input of it writes. |
| BaselineOutcome.BisectLeft | scripts/audit_structural_baseline.py:50 | On ordered quotes, a quote lies before the position exactly when it is earlier than the time. |
| BaselineOutcome.BisectRight | scripts/audit_structural_baseline.py:57 | On ordered quotes, a quote lies before the position exactly when it is no later than the time. |
| BaselineOutcome.FirstHit | scripts/audit_structural_baseline.py:60 | The hit is the first quote in the range at or beyond stop or target. |
| BaselineOutcome.NoTimelyEntryIff | scripts/audit_structural_baseline.py:50-53 | Main: there is no timely entry if and only if no quote lies between latency and quote age after the decision. |
| BaselineOutcome.OutcomeIff | scripts/audit_structural_baseline.py:54-62 | Main: given the entry quote, the plan is invalid if and only if its bid is at or below the stop or the target is already paid for; otherwise it is censored, reserved to the horizon's end, if and only if no quote within the horizon reaches stop or target and none lies within a quote age of its end; otherwise it is resolved. |
| BaselineOutcome.ResolvedIs | scripts/audit_structural_baseline.py:63-68 | Main: a resolved outcome leaves at the first quote at or beyond stop or target, or else at the last one within the horizon, for the reason its bid gives; it nets the shares sold at the bid less slippage, less the shares bought at the ask plus slippage, less two fees. |
| BaselineOutcome.SettleTimes | scripts/audit_structural_baseline.py:48-71 | A resolved outcome entered between latency and quote age after its decision and left within the horizon; a censored one reserves the family to the end of the horizon. Which outcome it is, is stated by NoTimelyEntryIff, OutcomeIff and ResolvedIs. |
| BaselineOutcome.DecisionIgnoresFuture | scripts/audit_structural_baseline.py:96-117 | Quote histories that agree up to a candle give the same sample there in everything but its outcome. |
| BaselineOutcome.CandidatesAre | scripts/audit_structural_baseline.py:84-95 | A candle's candidates are exactly the levels it breaks or accepts and, after three rising closes and a fourth, the resistance with the lowest top among those whose top lies within ten basis points above the close. |
| BaselineOutcome.ObstaclesAre | scripts/audit_structural_baseline.py:106-113 | Each obstacle is named exactly when its cause is there: volume, activity, no quote within a quote age, spread in basis points, or a stop or target without room. |
| BaselineOutcome.SampleMeans | scripts/audit_structural_baseline.py:99-117 | A sample's stop is a tick below its level, its target the lowest overhead resistance or zero, and its obstacles and outcome are those of just that plan. |
| BaselineOutcome.KeyIff | scripts/audit_structural_baseline.py:98 | Samples count as repetitions of one level exactly when they are of one family and share a unified identity, or have none and share both edges. |
| BaselineOutcome.EvaluateRows | scripts/audit_structural_baseline.py:74-117 | Refuses exactly unordered quotes, unordered candles and future confirmations, in that order; otherwise every sample comes from a candidate, samples of one level in one family are the repeat window apart, and every other candidate lies inside such a window. |
| BaselineOutcome.FreeGrows | scripts/audit_structural_baseline.py:121-130 | The time at which a family is free again never runs back. |
| BaselineOutcome.TakenIff | scripts/audit_structural_baseline.py:122-130 | Main: an opportunity is taken if and only if nothing blocks it and every one taken before it in its family is over: left, past its reserved horizon, or past a quote age when it never filled. |
| BaselineOutcome.TradesAre | scripts/audit_structural_baseline.py:122-124 | The trades are the outcomes of exactly the opportunities taken and resolved, in order. |
| BaselineOutcome.UnresolvedAre | scripts/audit_structural_baseline.py:125-127 | The unresolved count is that of the opportunities taken and censored. |
| BaselineOutcome.FamilyIs | scripts/audit_structural_baseline.py:120 | A family's opportunities are exactly the samples of that family. |
| BaselineOutcome.TakenDoNotOverlap | scripts/audit_structural_baseline.py:119-130 | Main: of two selected trades of one family the earlier one is over before the later one is even decided. |
| BaselineOutcome.SelectTrades | scripts/audit_structural_baseline.py:119-130 | The selection loop takes exactly the opportunities whose family is free, in order, and counts the unresolved ones. |
| AdaptiveExit.PeakAt | scripts/evaluate_structural_timing.py:58-59 | The recorded progress is the first quote holding the highest bid so far. |
| AdaptiveExit.WeakIff | scripts/evaluate_structural_timing.py:46-57 | The structure is weak at a time if and only if a candle since the entry and within the rejection age turned back at a band it reached and closed no higher than, or the last two candles closed lower than the ones they directly follow and the last is within a quote age. |
| AdaptiveExit.StalledMeans | scripts/evaluate_structural_timing.py:71-74 | Main: a quote is stalled if and only if the entry and the peak are old enough, its bid lies below the peak by the multiple of its spread and by the basis points of the entry, and the structure is weak. |
| AdaptiveLaws.ExperimentIs | scripts/evaluate_structural_timing.py:44-80 | Main: the experiment leaves by a stalled exit if and only if some quote since the entry is the first stalled one, another is the first at least a latency after it, both within the horizon and before any quote that reached stop or target; it leaves at that second quote, netting its bid less slippage against the same entry less two fees. Otherwise it is the baseline's outcome. |
| AdaptiveLaws.TraceIs | scripts/evaluate_structural_timing.py:71-78 | An exit is requested at most once, and exactly at that first stalled quote. |
| AdaptiveLaws.RequestMeans | scripts/evaluate_structural_timing.py:58-78 | The request records the highest bid since the entry and when it was first reached, the latest candle that turned price back, how many of the latest candles fell in a row, and the retrace asked for. |
| AdaptiveExit.WatchMeetsHit | scripts/evaluate_structural_timing.py:44-71 | The stream leaves at the baseline's first hit with its reason, unless a stalled exit came strictly before it. |
| AdaptiveExit.PairedExit | scripts/evaluate_structural_timing.py:25-80 | Main: the paired exit keeps the fill and is never later than the baseline. It differs exactly when a stalled fill comes before the baseline's hit, and then leaves at that quote; it is over strictly earlier exactly when that quote's time is strictly below that of the quote the baseline left at; on the baseline's own quote it can only be the horizon's, with the same net. |
| AdaptiveExit.StalledExitIff | scripts/evaluate_structural_timing.py:44-75 | A stalled exit happens exactly when, after the first quote before the hit that is old, stagnant, below its peak and weak, some quote before the hit lies at or past the latency; the first such quote is where it happens. |
| AdaptiveExit.StalledOnHorizonQuote | scripts/evaluate_structural_timing.py:65-80 | An entry whose stalled exit fills on the very quote that ends the horizon: time and net are the baseline's, only the reason differs. |
| AdaptiveExit.StalledAtTheSameTime | scripts/evaluate_structural_timing.py:65-80 | An entry whose stalled exit and whose baseline stop fall on two quotes of one time: neither is earlier, the reasons and the nets differ. |
| AdaptiveExit.StalledIsLater | scripts/evaluate_structural_timing.py:65-75 | A stalled exit never happens on the entry quote itself. |
| AdaptiveExit.WeakIs | scripts/evaluate_structural_timing.py:72 | The carried rejection time and falling count decide weakness exactly as the candles seen so far do. |
| AdaptiveExit.ReadRows | scripts/evaluate_structural_timing.py:46-57 | The evidence carried between quotes is that of exactly the candles closed by then. |
| AdaptiveExit.Run | scripts/evaluate_structural_timing.py:25-80 | The streaming loop, with its running peak, rejection time, falling count and request, returns the specified exit and the whole trace of the request. |
| PairedCohort.PairsAreApart | scripts/evaluate_structural_timing.py:127-140 | Over any prefix the pairs are disjoint in both variants and the family is still busy until the last baseline exit. |
| PairedCohort.PairsAre | scripts/evaluate_structural_timing.py:127-140 | The pairs are those of exactly the opportunities taken and resolved, in order, each the baseline's outcome beside what the stalled exit gives on the same entry. |
| PairedCohort.ExperimentalTradesNeverOverlap | scripts/evaluate_structural_timing.py:125-140 | Main: although the cohort is chosen by baseline occupancy alone, an earlier experimental trade is out, and its baseline too, before a later one fills. |
| PairedCohort.StudySettles | scripts/audit_structural_baseline.py:115-121 | Every sample of a study carries the outcome its own quotes settle, family by family, so the two results above apply to it. |
| PairedCohort.Analyze | scripts/evaluate_structural_timing.py:127-140 | The loop over the accepted breakouts builds exactly one pair for each taken and resolved opportunity. |
| CheckpointWrites.PutsAt | scripts/build_swing_structure_book.py:45-47 | With distinct keys, each key ends with the row written unless a higher revision was already stored. |
| CheckpointWrites.PutsOnlyRaise | scripts/build_swing_structure_book.py:45-47 | No write removes a key or lowers its revision. |
| CheckpointWrites.MissingIs | scripts/build_swing_structure_book.py:60-78 | Recovery fails exactly when some row meets a different one of equal or higher revision; otherwise it keeps exactly the rows not verified as stored. |
| CheckpointWrites.RecoveryCompletes | scripts/build_swing_structure_book.py:88-98 | Main: whatever part of a lost write was stored, writing only the missing rows gives exactly the table a clean write would have. |
| CheckpointWrites.RecoveryStopsIff | scripts/build_swing_structure_book.py:71-78 | After a lost response the writer stops exactly when a row was already superseded, or had a different equal revision the lost write did not replace; a clean write stops on neither. |
| CheckpointWrites.FinishedInsert | scripts/build_swing_structure_book.py:42-98 | After a finished insert every row's key holds that row or a higher revision, and no other key changes. |
| CheckpointWrites.Writer.Write | scripts/prototype_structure_book_clickhouse.py:133-141 | A write is stored whole when acknowledged; otherwise any part of it may be, and nothing else is. With no response to be lost it is acknowledged. |
| CheckpointWrites.Writer.Recover | scripts/build_swing_structure_book.py:60-78 | Reading back either stops on a conflict or returns unverified rows whose writing completes the batch. |
| CheckpointWrites.Writer.InsertBatch | scripts/build_swing_structure_book.py:79-98 | At most three sends, none of them a retry of a verified row; refuses exactly repeated keys up front; on success the table is the batch merged into what was there; with no response lost and distinct keys it succeeds. |
| CheckpointWrites.Writer.Insert | scripts/build_swing_structure_book.py:42-98 | Batches of at most five hundred; on success the table is all rows merged in; a conflict means a row really conflicts; nothing but the given rows is ever stored; with no response lost and distinct keys it succeeds. |
| SwingHistory.HistoryWellFormed | scripts/build_swing_structure_book.py:188-250 | Versions of the book are strictly ordered in time and each lists its levels by identity. |
| SwingHistory.CoveredIsBook | scripts/build_swing_structure_book.py:188-250 | Once every version has landed and all but the last are closed, the table is the finished book, whatever was written in between. |
| SwingHistory.BookIsUnique | scripts/build_swing_structure_book.py:188-250 | Two finished books of one history are the same table. |
| SwingHistory.BookSays | scripts/build_swing_structure_book.py:188-250 | Main: from the first version on, the rows valid at any time are exactly the levels of the version in force. What that version holds in prices is stated by SwingLaws.BookSaysInPrices. |
| SwingHistory.NoOverlap | scripts/build_swing_structure_book.py:257-259 | No level is described twice at one time and no closed row has an empty interval. |
| SwingReads.ReadIs | scripts/build_swing_structure_book.py:243 | Reading one start time returns exactly the table's rows there, highest revision of each, in level order. |
| SwingReads.ReadCarries | scripts/build_swing_structure_book.py:195-196 | Reading a covered version back gives its levels in order, whether its rows are open or already closed. |
| SwingRun.Builder.WriteVersion | scripts/build_swing_structure_book.py:240-241 | However its two writes end, the book keeps what it covered; when both finish it covers one version more, and when no response is lost both finish. |
| SwingRun.Builder.ApplySplits | scripts/build_swing_structure_book.py:207-220 | When it finishes, and it does when no response is lost, every applicable split has its version in the book and the carried rows are those of the last one; SwingLaws.VersionIsGrown says what those versions hold in prices. |
| SwingRun.Builder.ProcessDay | scripts/build_swing_structure_book.py:200-250 | However a session ends, its marker is never ahead of its rows; only a failed write stops it, and none does when no response is lost; when it finishes the marker is stored and the state passed on is the session's closing state. |
| SwingRun.Builder.Resume | scripts/build_swing_structure_book.py:193-199 | A committed session is restored from its rows, matches its marker, and hands on the state and rows an uninterrupted run would have. |
| SwingRun.Builder.Run | scripts/build_swing_structure_book.py:188-256 | A run from any committed point never loses a session and stops for nothing but a failed write: hashes, intervals and session counts never do. With no response lost it finishes, and a finished run has committed every session. |
| SwingRun.Builder.CheckOutput | scripts/build_swing_structure_book.py:257-262 | The closing checks never refuse a fully committed build: no interval is empty or inverted and there is one marker for each session. |
| SwingRun.RecoverAndFinish | scripts/build_swing_structure_book.py:188-262 | Main: from any committed point, any number of runs whatever becomes of their writes, and then one whose responses arrive, commit every session. |
| SwingRun.BuildFromScratch | scripts/build_swing_structure_book.py:188-262 | The same from empty tables: the book is the finished book and the markers are complete. |
| SwingRun.ReopeningStopsIff | scripts/build_swing_structure_book.py:71-78 | Recovering the opening write of a version of the book stops if and only if some of its rows is already stored closed, whatever part of the lost write arrived. |
| SwingRun.DiedAfterClosing | scripts/build_swing_structure_book.py:240-241 | Such a table is reached: a session that died after closing its restated rows and is run again is refused by the recovery as soon as a response is lost. |
| SwingRun.CommittedReadsBack | scripts/build_swing_structure_book.py:193-199 | The rows of every committed session, open or closed since, read back to the state it was hashed from. |
| SwingRun.MarkerMeansRows | scripts/build_swing_structure_book.py:242-249 | Main: wherever a build stops, a marker implies its closing rows are stored and hash to its value. |
| SwingRun.FinishedBuild | scripts/build_swing_structure_book.py:188-262 | A finished build holds exactly the finished book and one marker for each session. |
| SwingLaws.GrowthIs | scripts/build_swing_structure_book.py:202-205 | Growth over a span is one without a split, multiplies over adjoining spans, and is a split's ratio across it. |
| SwingLaws.ClosingStateIs | scripts/build_swing_structure_book.py:202-206 | A session closes in what the engine makes of the previous closing state, the session, and the growth from that close to this opening. |
| SwingLaws.VersionIsGrown | scripts/build_swing_structure_book.py:101-110 | The version k splits after a close lists the closing levels with the same identity and rest, and price, edges and distances multiplied by those k ratios; it begins at the k-th split. |
| SwingLaws.BookSaysInPrices | scripts/build_swing_structure_book.py:188-250 | Main: in a finished book the rows valid at any time from a session's close to the next one's are exactly the levels of that closing state, their price, lower and upper edge and distances multiplied by the ratios of the splits from that close to the time, but no further than the next opening. |
| SwingLaws.NothingBefore | scripts/build_swing_structure_book.py:188-250 | Before the first close no row is valid. |
| SwingLaws.MarkTells | scripts/build_swing_structure_book.py:223-249 | The marker of a committed session holds its closing time, the sequence and state the engine made of it, and the last close of regular hours or zero. |
| SwingLaws.PriorCloseIs | scripts/build_swing_structure_book.py:231-233 | A marker records the close of the last bar of regular hours, and zero when there is none. |
| SwingRun.FinishedBuildsAgree | scripts/build_swing_structure_book.py:188-262 | Main: two finished builds of one plan agree on the book and the session table, whatever failed along the way. |
| Equity.WindowIsDifference | scripts/measure_strategy_equity.py:84-85 | Shares, cash, fees and fill counts of an interval are the differences of the running sums at its ends. |
| Equity.HeldIs | scripts/measure_strategy_equity.py:60 | A fill counts at a position exactly when it lies before it, or at it when the end is included. |
| Equity.LatestMarkIs | scripts/measure_strategy_equity.py:61 | The mark in force is the last one before the position, or at it when the end is included. |
| Equity.FillAtMark | scripts/measure_strategy_equity.py:49-66 | A fill at the mark in force changes the value by its fee alone, the shares by its quantity and the fees by its fee. |
| Equity.MarkMoves | scripts/measure_strategy_equity.py:59-66 | A move of the mark changes the value by the shares held times the move. |
| Equity.NothingIsWorthNothing | scripts/measure_strategy_equity.py:56-66 | Without fills the value is zero, marks or none. |
| Equity.SlicesAddUp | scripts/measure_strategy_equity.py:23-24 | Main: over adjacent slices with only the last end-inclusive, net, fees and fills add up to the whole interval. |
| Equity.ValueOnCurve | scripts/measure_strategy_equity.py:70-74 | Between events the value stands still: every position of the interval has the value of the curve point it falls on. |
| Equity.SliceDrawdown | scripts/measure_strategy_equity.py:74-77 | Main: no slice draws down more than the run it is cut from. |
| EquityMeasure.SortSorts | scripts/measure_strategy_equity.py:36 | The fills are put in time order without losing or adding any. |
| EquityMeasure.HeldIsPrefix | scripts/measure_strategy_equity.py:60 | In time order the fills counted at a position are a prefix, and the search finds its end. |
| EquityMeasure.MarkIsSearched | scripts/measure_strategy_equity.py:61 | The mark just before the searched position is the last causal one. |
| EquityMeasure.ValueAtIs | scripts/measure_strategy_equity.py:59-66 | Main: prefix sums and search value every position exactly as naive valuation of the fills does, and fail exactly when it does. |
| EquityMeasure.AgeAtIs | scripts/measure_strategy_equity.py:59-66 | The age read off the searched position is the time since the last causal mark. |
| EquityMeasure.PointsAreEvents | scripts/measure_strategy_equity.py:70-72 | The valuation points are exactly the distinct event times of the interval, in order. |
| EquityMeasure.Tabulate | scripts/measure_strategy_equity.py:37-55 | Accepts exactly fills with positive quantity and price and distinct identities, and then builds exactly the running sums. |
| EquityMeasure.FillErrorIs | scripts/measure_strategy_equity.py:38-48 | Fills are refused for the first one, in time order, that repeats an identity or has no positive quantity and price, as repeated when it does both, and for nothing else. |
| EquityMeasure.ValueClocks | scripts/measure_strategy_equity.py:59-66 | Finishes exactly when every position can be valued, and then returns the curve and the quantities. |
| EquityMeasure.WorstFall | scripts/measure_strategy_equity.py:75-77 | The running peak finds the largest fall over all earlier and later pairs, and the first point at which it is reached. |
| EquityMeasure.MeasureTables | scripts/measure_strategy_equity.py:68-89 | On valid tables a report says what naive valuation says in every column; the only failure is inventory held before its first mark. |
| EquityMeasure.Measure | scripts/measure_strategy_equity.py:23-89 | Main: a report exists exactly for valid inputs whose every position has a causal mark, and each of its columns, the ages of its marks included, is what naive valuation at every event gives; any other input is refused for the first cause in the order of the checks. |
| MoveCapture.Capture | scripts/measure_strategy_move_capture.py:18-39 | One pass in any order gives the inventories at both ends and cash, fees and fills inside the move; refuses exactly a non-positive quantity by the end. |
| MoveCapture.CaptureIsDifference | scripts/measure_strategy_move_capture.py:37 | When the move's prices are the marks at its ends, its profit is the difference of the two naive valuations. |
| MoveCapture.ReportsAddUp | scripts/measure_strategy_equity.py:78-86 | Reports of two adjacent intervals add up to the report of the whole, and the inventory one ends with is what the next opens with. |
| MoveCapture.SlicesOfAReport | scripts/measure_strategy_equity.py:23-28 | A slice of a reported run never lacks a mark and draws down no more than the run. |
| MarketSummary.BestOfIs | scripts/build_hindsight_greedy.py:67-72 | The grouped columns name the highest score, the smallest key among equals and that row's own capital, or nothing when every score is missing. |
| MarketSummary.GroupedIs | scripts/build_hindsight_greedy.py:63-67 | The other columns are the highest capital of an openable row, zero when there is none, and the numbers of openable and of valued rows. |
| MarketSummary.BestIsUnique | scripts/build_hindsight_greedy.py:82-85 | There is only one such best candidate. |
| MarketSummary.GroupedConcat | scripts/build_hindsight_greedy.py:75-92 | Main: merging the summaries of two parts of the market is summarising both together, in every column, with missing scores and ties. |
| MarketSummary.GroupedPermutes | scripts/build_hindsight_greedy.py:364-372 | The order in which rows arrive changes no column. |
| MarketSummary.MergeSummary | scripts/build_hindsight_greedy.py:75-92 | Merges exactly when the time grids agree, and then holds at every time the summary of everything merged so far. |
| MarketSummary.SummarizeListing | scripts/build_hindsight_greedy.py:95-108 | Direct columns merged side by side give at every time what grouping the listing's rows would. |
| MarketSummary.Reduce | scripts/build_hindsight_greedy.py:356-372 | Main: the listing-by-listing reduction gives at every time what grouping the whole market would, or refuses when some grid differs. |
| MarketSummary.PolicyIsBest | scripts/build_hindsight_greedy.py:111-124 | The decision is unavailable exactly when an openable candidate has no value; an entry is a real candidate bought with the largest opening price and no candidate promises more; waiting means no score is positive. |
| CheckpointCalendar.PreviousWeekday | scripts/build_structure_level_checkpoints.py:37-42 | The loop stops at the latest weekday no later than the date. |
| CheckpointCalendar.FittingIs | scripts/plan_structure_checkpoint_batches.py:37 | The first bucket no larger than the estimate is a bucket and fits it. |
| CheckpointCalendar.CadenceIsGreatest | scripts/plan_structure_checkpoint_batches.py:30-37 | The cadence is the greatest bucket no larger than seven fifths of the sessions the budget allows, one at least; there is none exactly when the total is within the budget or no session has events. |
| CheckpointCalendar.EstimateIsSafeIff | scripts/plan_structure_checkpoint_batches.py:30-37 | Main: the estimate of seven calendar days for five sessions holds a cadence to its sessions, for every number of sessions and every start, if and only if the cadence leaves neither four nor five days over whole weeks. |
| CheckpointCalendar.BucketFits | scripts/plan_structure_checkpoint_batches.py:11 | Each bucket is such a cadence, so one of at most seven fifths of the sessions never spans more weekdays than sessions, wherever it starts. |
| CheckpointCalendar.CadenceFits | scripts/plan_structure_checkpoint_batches.py:30-37 | The chosen cadence is positive and never spans more weekdays than sessions the budget allows. |
| CheckpointCalendar.FourDaysWouldNotFit | scripts/plan_structure_checkpoint_batches.py:11 | Four days is the smallest cadence for which it fails: it passes the test for three sessions and spans four. |
| CheckpointCalendar.CheckpointSchedule | scripts/build_structure_level_checkpoints.py:45-69 | Returns, strictly increasing, exactly the target days, the cursors before the target moved off weekends, and the day before the target moved likewise. |
| CheckpointCalendar.RequestsFitBudget | scripts/build_structure_level_checkpoints.py:54-57 | Main: with sessions on weekdays and none above the maximum, every request after the first covers at most the event budget and the first at most one session more. |
| CheckpointCalendar.CursorGapIsWiderIff | scripts/build_structure_level_checkpoints.py:60-66 | Main: of two consecutive cursors both dates are checkpoints with nothing between them, and they lie further apart than the cadence if and only if the first is moved back further than the second: a Saturday against a weekday, or a Sunday against anything else. |
| CheckpointCalendar.EveGapIsWiderIff | scripts/build_structure_level_checkpoints.py:60-69 | The same for the last cursor and the eve of the target, and for the eve and the target itself. |
| CheckpointCalendar.CalendarGapIsWider | scripts/build_structure_level_checkpoints.py:64 | Such a schedule: three-day steps from a Sunday leave two neighbouring checkpoints five days apart. |
| ReportingFlags.UpdatedBits | scripts/backfill_trade_reporting_flags.py:246 | The rewrite keeps the low six bits, sets the flag bits, keeps the trade bit and is idempotent. |
| ReportingFlags.MutationWrites | scripts/backfill_trade_reporting_flags.py:245-248 | Main: the daily mutation reaches exactly the odd bytes inside the window, keeps their six low bits, and sets the two high ones to the class mapped to the trade when that is delayed, unknown or regular, and otherwise to regular. |
| ReportingFlags.MonthMapHas | scripts/backfill_trade_reporting_flags.py:293-294 | The monthly map has exactly the trades some day maps without mismatch to another class than regular, with the last such day's byte. |
| ReportingSource.NoMismatchMeansSameTrades | scripts/backfill_trade_reporting_flags.py:231-242 | Matching by rank finds no mismatch exactly when both sides list the same trades, and then pairs each trade with its own source byte. |
| ReportingSource.MetaIsKnown | pipelines/market_sip/events/trade_reporting_flags.py:18-59 | Main: a source trade's flags are delayed exactly when a late condition is explicit or, with both clocks known, its date is earlier or its lag above ten seconds; regular when otherwise its clocks are known, unknown when not; never the fourth pattern. |
| ReportingSource.MetaBits | pipelines/market_sip/events/clickhouse_build_unified_events.py:605-611 | Bit by bit: a source trade's byte carries the trade bit, three of its own flags, two clear bits and the class its condition and its clocks give. |
| ReportingSource.CertifiedIff | scripts/backfill_trade_reporting_flags.py:370-372 | The source copy is as certified exactly when it has the certified number of trades, all inside the certified window. |
| ReportingSource.AmbiguousIff | scripts/backfill_trade_reporting_flags.py:371-376 | In the order its table keeps, a day is refused as ambiguous exactly when two of its trades could change places and still be in order. |
| ReportingSource.AcceptedIff | scripts/backfill_trade_reporting_flags.py:379-395 | Main: the check before a day counts as staged passes exactly when every ticker lists the same trades on both sides in the same order; without mismatches the row count alone never refuses. |
| ReportingSource.AcceptedReconciles | scripts/backfill_trade_reporting_flags.py:231-242 | A day so accepted is mapped completely: each canonical trade to the byte of the source trade of its ticker and rank, low bits agreeing, every flag a known class. |
| ReportingFlags.MutationPreserves | scripts/backfill_trade_reporting_flags.py:245-248 | The daily mutation changes only flag bits of trades in the window, and applied again changes nothing. |
| ReportingFlags.MutationVerifiesIff | scripts/backfill_trade_reporting_flags.py:319-327 | On a reconciled day the check after the mutation passes if and only if no expected byte carries the flag pattern 128. |
| ReportingFlags.MonthIsDays | scripts/backfill_trade_reporting_flags.py:251-261 | For rows in a staged window, and for rows outside the month's span, the single monthly mutation does what the daily mutations in sequence do. |
| ReportingFlags.BetweenWindows | scripts/backfill_trade_reporting_flags.py:251-261 | For a trade lying between two staged windows the two differ in effect: the month rewrites it to regular, the days leave it. |
| ReportingFlags.MonthAgreesIff | scripts/backfill_trade_reporting_flags.py:251-261 | Main: month and days give a row the same if and only if it lies in a staged window, outside the month's span, or is regular already. |
| ReportingFlags.MonthDiffers | scripts/backfill_trade_reporting_flags.py:251-261 | A staged month of two days without trades, and one trade of unknown class between their windows, for which they differ. |
| ReportingFlags.CountCheckIff | scripts/backfill_trade_reporting_flags.py:296-303 | The row-count check before the monthly mutation passes exactly when no expected byte carries the pattern 128. |
| ReportingSource.MonthlyCountHolds | scripts/backfill_trade_reporting_flags.py:296-303 | So it never refuses a month of days staged from their source: no source trade has that pattern. |
| ReportingDay.AdvancedSound | scripts/backfill_trade_reporting_flags.py:409-420 | A running mutation may rewrite any part of its rows, again or not, between any two steps without harm. |
| ReportingDay.FinishedVerifies | scripts/backfill_trade_reporting_flags.py:421-430 | A finished mutation passes verification, always: every mapped byte comes from a source trade. |
| ReportingDay.CompleteMeans | scripts/backfill_trade_reporting_flags.py:432-436 | Main: once a day is recorded complete, each of its trades carries the byte of the source trade of the same ticker and rank, which agrees with it in everything else, and every other field and row is as it was. |
| ReportingDay.DayMigration.Stage | scripts/backfill_trade_reporting_flags.py:355-395 | Rebuilds staging only, never the canonical table; it ends staged if and only if the source copy is as certified, in one order, not empty and lists the day's trades, and otherwise refuses for the stated cause. |
| ReportingDay.DayMigration.MatchTickers | scripts/backfill_trade_reporting_flags.py:379-389 | Matching ticker batches of any size one after another builds the table of the whole day. |
| ReportingDay.DayMigration.EnsureSubmitted | scripts/backfill_trade_reporting_flags.py:405-409 | Records the intent before submitting, and leaves a mutation already submitted alone. |
| ReportingDay.DayMigration.Await | scripts/backfill_trade_reporting_flags.py:410-420 | Returns success only when nothing is left to rewrite, and failure only when the server reported one. |
| ReportingDay.DayMigration.Verify | scripts/backfill_trade_reporting_flags.py:319-327 | Passes exactly when the day's trades are the mapped ones, each with its expected byte. |
| ReportingDay.DayMigration.CompleteDay | scripts/backfill_trade_reporting_flags.py:432-436 | Records completion first and drops evidence after, keeping soundness wherever it dies. |
| ReportingDay.DayMigration.ProcessDay | scripts/backfill_trade_reporting_flags.py:336-436 | Main: one run of a day keeps soundness wherever it dies; a complete day is skipped, a finished one has no evidence left, each refusal has its stated cause and a failed verification is never one; undisturbed, it finishes exactly when the day was staged already or can be staged. |
| PriorState.FoundIsNearest | scripts/build_market_day.py:682-732 | Main: a state found is that of a priced certified session, restated for the splits executed between it and the session it is carried into, at the end of a chain of at most fifty strictly earlier sessions, all before it certified and quote-only. |
| PriorState.RatioConcat | scripts/build_market_day.py:703 | Restating over two spans of dates in turn is restating over both at once. |
| PriorState.RatioIs | scripts/build_market_day.py:703 | Restating multiplies by the ratio of the one split executed in the span, and by one when there is none. |
| PriorState.FoundIff | scripts/build_market_day.py:682-732 | Main: a lookup finds a state of a build if and only if such a chain of at most fifty sessions starts at the predecessor and ends in it. |
| PriorState.NothingIff | scripts/build_market_day.py:682-713 | A lookup starts from nothing if and only if there is no predecessor, no candidate for it, or a certified quote-only one that itself started from nothing. |
| PriorState.ChainDescends | scripts/build_market_day.py:715-719 | Dates strictly fall along such a chain and no session before its end bears a price, so the one found is the nearest. |
| PriorState.NeverCyclic | scripts/build_market_day.py:687-688 | The refusal as cyclic or excessive can only mean a quote-only chain of more than fifty sessions; the cycle test never fires. |
| PriorState.HashBindsState | scripts/build_market_day.py:722-732 | Two lookups, even in different ledgers, that agree on the hash agree on the restated values and on the build they came from. |
| MarketLedger.OutputSound | scripts/build_market_day.py:817-835 | Storing rows under an attempt nothing was published from leaves every certificate sound. |
| MarketLedger.UnitSound | scripts/build_market_day.py:106-114 | Publishing into a free place, with its inputs of the same attempt and source already there, keeps the ledger sound and every certificate unchanged. |
| MarketLedger.SeedSound | scripts/build_market_day.py:122-128 | A seed of the indicators' attempt and dependency keeps the ledger sound and every certificate unchanged. |
| MarketLedger.ResumeHash | scripts/build_market_day.py:735-759 | A published unit is resumed under its own hash or not at all; another than the current one only for a quote-only predecessor with the same carried build and attempt. |
| MarketLedger.ResumesIff | scripts/build_market_day.py:735-759 | A session is resumed if and only if nothing of it is published, what is published depends on just this, or it was published under a seed of its own attempt, carried from the same quote-only predecessor and build. |
| MarketLedger.Builder.Publish | scripts/build_market_day.py:106-114 | Publishes once: a place already taken stays as it is, and the call succeeds exactly when it holds this very unit. |
| MarketLedger.Builder.PutSeed | scripts/build_market_day.py:122-128 | A seed is stored once: an existing one stays as it is, and the call succeeds exactly when the stored seed is this very one. |
| MarketLedger.Builder.Completed | scripts/build_market_day.py:556-568 | On a sound ledger a unit is found exactly when published from this dependency, and the only refusal is a changed one: the integrity check never fails. |
| MarketLedger.Builder.BuildBars | scripts/build_market_day.py:805-844 | However it ends, certificates stay sound and unchanged. A session without bars gets them if and only if it is not half-published, its inputs and bars validate and four effects remain; it becomes half-published if and only if it gets as far as the inputs and then dies or meets duplicate bar keys; a half-published session is refused by every rerun and stays as it is. |
| MarketLedger.Builder.BuildTechnical | scripts/build_market_day.py:852-897 | However it ends, certificates stay sound and unchanged. Undisturbed it succeeds if and only if the bars are there, the state this ledger and the others carry in is found, and the indicators are resumable or validate; a new seed records that very lookup. |
| MarketLedger.BuiltCarries | scripts/build_market_day.py:682-732 | A session just built can be built on: when it bears no price, a later lookup passes through it to the state it was itself built from, under the build and hash its seed names, or finds nothing if it was built from nothing. |
| MarketLedger.Builder.BuildTicker | scripts/build_market_day.py:782-898 | Main: any ticker run, wherever it dies, keeps every published unit and seed, bars imply inputs of the same attempt and source, indicators imply bars, a seed implies indicators of its attempt; undisturbed it finishes if and only if every session in turn is ready, and a finished run has built every session. |
| MarketLedger.UntouchedIsReady | scripts/build_market_day.py:782-898 | Main: on a sound ledger, sessions of which nothing is published, whose work validates and whose predecessors carry a state are ready, so an undisturbed run over them finishes. |
| MarketLedger.CrashBetweenPublications | scripts/build_market_day.py:836-844 | A run of valid work that dies after its third effect leaves the session half-published, and the next undisturbed run of it fails. |

## Left out

Weaker than the source in one respect:

- CompressionScore.CompressExact: states one direction over a whole sequence; the equivalence is proved for every run and, from one seed, at the end of every run, because later observations can erase the difference a lost range made (an encounter that ends without any excursion, for instance).
- MigratorProcess.Migrator.Migrate: what the environment checks find is an input, merges are not stopped or started, and the read-only plan is not modelled.
- MarketLedger.Builder.BuildTicker: ledgers of other builds enter as read-only evidence, whether the computed outputs pass their own validations is an input, and the stop flag, progress and logs are absent.
- ReportingDay.DayMigration.ProcessDay: the source copy arrives in the order its table keeps and an interrupted copy counts as absent, the flat-file download is an input, and a row's event date is the date of its SIP time.
- ReportingFlags.MonthIsDays: the monthly map's creation and its bookkeeping in the coverage records are not modelled, only the mutation and the count check before it.
- SwingRun.Builder.Run: the closing check of storage placement is not modelled, and nothing is claimed of the audit hashes after a resume, which differ from an uninterrupted run's.
- CheckpointWrites.Writer.InsertBatch: waiting between attempts and the numeric normalisation of compared rows are not modelled.
- BaselineOutcome.EvaluateRows: requires of the quotes that bid and ask do not add up to zero, since the source divides by their sum; everything else about them is free.
- BaselineOutcome.BisectLeft: finds the position by walking, not by halving; the position is what the search promises.

Not modelled:

- Floating point: prices, cash and scores are reals; the 1e-8 inventory tolerances are exact zero, the 1e-9 slack of the quality test is kept, and the logarithm that turns the score into a prominence is taken as already applied.
- The level engine, the indicator solvers and the bar rollups: uninterpreted functions or inputs.
- Excursion diagnostics of outcomes (mfe, mae, horizon return), timing metrics and seconds since breakout: they decide nothing.
- The `sequence`, `regime` and `progression` values copied into orders and samples.
- ClickHouse, HTTP, SQLite, Parquet, CSV and file locks: tables are maps and sequences, and one statement is one step.
- News-label corrections, identity audits, population freezing, plotting, service control and the `runner` variant of the replay: branch tables or easier repetitions of what is here.
