# Verification of the AIQuantTrader core

Dafny models of the parts of AIQuantTrader that keep state or transform data,
with proofs of what they promise. `dafny verify dfyconfig.toml` checks the whole
project. Each module follows one component; code that updates state step by step
is a class or a method with loops, proved equal to a function on values, and the
guarantees are lemmas about those functions over every input, run or reachable
state.

| modules | component | what is proved about it |
|---|---|---|
| `Market`, `Conversion`, `BookReplay`, `ReplayCorrectness`, `RowReplay` | normalized dataset to replayed order book | Expanding events into CLEAR, SNAPSHOT, BBO and TRADE rows, re-sorting them by local time and folding them back preserves the book. The reference never looks at rows: it says, for each price, which event decides. The rows themselves come out in column order. For any rows, whoever wrote them: what is yielded and exactly where the replay stops. |
| `Candles`, `CandleBatch`, `CandleNesting`, `CandleEngine` | causal candles with crash restores | Incremental candles are the batch group-by, nest across timeframes, and survive one crash exactly as promised; when a crash is harmless is an if-and-only-if. |
| `MarketStructure`, `StructureReading` | pivots, levels, breaks, gaps, blocks, scores | Every reading by if-and-only-if over bar positions; the bullish and the bearish reading are exact mirror images. |
| `Governance`, `AdmissionLedger`, `LedgerGuarantees`, `LedgerAuthority`, `LedgerExamples`, `RenewalApproval` | deployment authority | Exactly when each operation succeeds and when the guard accepts; single owner, no reuse of identities, no revival, gapless renewal chains, a faithful log, exactly which records can be read back, and renewals that verify are applicable and cannot be replayed. |
| `ExecutionJournal`, `ExecutionAudit`, `AuditEvidence`, `JournalAgreement` | order journal and independent auditor | What the auditor demands of the evidence, row by row; it accepts exactly what the journal writes. |
| `ExecutionGateway`, `DenialProtection`, `LiveDrain` | order gateway and live strategy | What every outcome of a call leaves behind; at-most-once dispatch at every crash point, exactly when a denial protects, the startup drain and the cancel budget. |
| `Bytes` (`BigEndian`, `Framing`), `RawArchive`, `RawSegment`, `ArchiveFormat` | framed raw archive | Exactly which bytes are accepted; round trip, refusal of every truncation and extension, injectivity. |
| `AuditLog` | hash-linked evidence log | Appends keep the log readable; the last digest fixes the history. |
| `LiveAssembler`, `EmittedStates`, `FeatureWindows`, `FeatureEngine`, `FeatureMeaning` | live states and features | What each emitted state and each reported feature shows; conservation of trades, composition of the two stages, windows as filters of the full history. |
| `PaperJournal`, `PaperRecovery`, `PaperCommits`, `PaperFailures` | paper engine and its journal | What a committed cycle leaves; memory equals what a restart would rebuild as long as a failed commit ends the process; exactly when it still does after a failed watchdog commit; and what holds over every run. |
| `Integrity`, `PositionLog`, `WalkForward` | de-duplication, position log, validation plan | Exactness of the bounded table, losslessness of the compressed log, completeness, layout and leak-freedom of the planner. |

Conventions. Decimal and float prices and sizes are reals. Times are natural
numbers passed in; nothing reads a clock. SHA-256, canonical JSON and the natural
logarithm are functions given from outside: digests are assumed free of
collisions only where a contract says so, encoders only to be undone by their
decoders. An exception is an error value. A database transaction is a method that
commits all its statements or restores every table. Risk decisions, approvals,
venue answers, storage faults and crashes are arbitrary inputs. A precondition
`Valid()` on an event, a state or a configuration stands for the checks its model
class performs when it is built. Automatic induction is switched off on every lemma,
so an inductive proof calls itself explicitly.

Where code and expectations part:

- The restore path of the structure engine quarantines every partial candle because
  a crash can truncate it (`market_structure.py:149-159`). That suffices for the
  first crash. Leaving a quarantined bucket closes no bar, so the runtime saves
  nothing, and a second crash before the next close restores the older bucket; the
  bar that the second crash cut is then emitted
  (`CandleEngine.SecondCrashCanTruncate`, and the exact condition in
  `CandleEngine.CrashSafeExactlyWhen`).
- A raw segment writer does not check the reader's metadata and payload limits, so
  it can finish a segment that its reader refuses
  (`RawArchive.ReadsBackExactlyWhen`).
- The audit log splits lines the way Python does, so any log rewritten with carriage
  returns before its newlines reads as the same history
  (`AuditLog.CarriageReturnIsAccepted`); without carriage returns the bytes are fixed
  (`AuditLog.ReadableIsWrittenExactlyWhen`).
- The save of the structure engine is a transaction of its own after the update in
  memory. A crash between the two is harmless only as long as the observation opened
  no new bucket (`CandleEngine.MidCycleSafeExactlyWhen`).
- A production admission composes the reason of the canary it supersedes and stores
  it unchecked. When the composed text exceeds 512 characters the canary's record can
  no longer be read back (`LedgerGuarantees.StaysReadableExactlyWhen`). Only superseded
  records are affected, so every decision of the ledger stays the same; calls about such
  a record fail with a reading error instead of a state error.
- A risk denial protects an intent exactly from the moment the intent's identity is in
  the journal (`DenialProtection.DenialProtectsExactlyWhen`).
- The watchdog of the paper service is a task that is awaited only at shutdown
  (`paper/service.py:239-263`), so a failed commit in it does not stop the market loop.
  Memory is then out of step unless the lost cycle was harmless, lost command numbers
  are never used, and a lost fill makes the first market cycle past its horizon fail
  (`PaperFailures`).
- Nothing ties the embargo to the label horizon
  (`WalkForward.ValidationLeaksExactlyWhen`).
- A renewal that verifies can still be refused by the ledger, but for one reason
  only: its renewal id was used before (`RenewalApproval.VerifiedRenewalApplies`).

## Model

| member | source | states |
|---|---|---|
| `Conversion.WorstPriceIsLast` | src/aiquanttrader/backtest/conversion.py:335-343 | For a best-first side the price the CLEAR row carries, a minimum of bids or a maximum of asks, is the last level, so clearing reaches exactly the depth of the snapshot. |
| `Conversion.SnapshotRowsAt` | src/aiquanttrader/backtest/conversion.py:327-355 | The rows of a snapshot, position by position: the bid side and then the ask side, each one CLEAR row at its worst price and then one SNAPSHOT row per level, best first. |
| `Conversion.NormalizedRows` | src/aiquanttrader/backtest/conversion.py:224-251 | Reading one stream succeeds exactly when its rows are in column order: exchange times never fall, at equal ones receipt times never fall, at both equal no trade follows a book, and then positions never fall. |
| `Conversion.OrderedExactlyWhen` | src/aiquanttrader/backtest/conversion.py:242-250 | A stream is in key order exactly when between any two of its rows exchange times do not fall, at equal ones receipt times do not fall, at both equal no trade follows a book, and then positions do not fall. |
| `Conversion.NextStream` | src/aiquanttrader/backtest/conversion.py:279-280 | The merge takes a smallest head among the non-empty streams, and among equal heads the one of the earliest stream. |
| `Conversion.MergeIsOrderedUnion` | src/aiquanttrader/backtest/conversion.py:279-280 | Merging ordered streams keeps the multiset of all items and comes out ordered by key. |
| `Conversion.RowsKeepOrder` | src/aiquanttrader/backtest/conversion.py:279-355 | The rows that come out are in column order: exchange times do not fall, at equal ones local times do not fall, and at both equal every trade row precedes every book row. |
| `Conversion.NoFaultExactlyWhen` | src/aiquanttrader/backtest/conversion.py:251-286 | No fault is met exactly when every stream is ordered, something is left to convert and no receipt precedes its exchange time. |
| `Conversion.BreaksExactlyWhen` | src/aiquanttrader/backtest/conversion.py:247-251 | Reading the streams on, as the merge consumes them, runs into a backward key if and only if some stream is unordered. |
| `Conversion.FaultIsTrue` | src/aiquanttrader/backtest/conversion.py:279-286 | The fault reported, the first one in merge order, is always true of the input. |
| `Conversion.RawNormalizedEvents` | src/aiquanttrader/backtest/conversion.py:254-364 | The lazy merge loop checks and expands the smallest head before it reads on in that stream. It succeeds exactly when every stream is ordered, something is left to convert and no receipt precedes its exchange time, with the merged events expanded in place and the resulting rows in column order; otherwise it reports whichever fault comes first in merge order. |
| `BookReplay.ApplyGroup` | src/aiquanttrader/backtest/kernel.py:174-235 | The inner loop consumes exactly the rows that share the first local time and leaves the ladders, book times and trades that folding them row by row gives. |
| `BookReplay.IterHftMarketStates` | src/aiquanttrader/backtest/kernel.py:147-259 | The generator, with its in-place dictionaries and its error exits, computes the recursive replay; a depth below one is refused. |
| `RowReplay.LastRowSettles` | src/aiquanttrader/backtest/kernel.py:178-218 | For any rows the size at a price is what the last row that settles it says, where a CLEAR or a BBO row settles its own price and every better one, and any other row its own price only; the time of a side is that of its last row. |
| `RowReplay.TopIsBest` | src/aiquanttrader/backtest/kernel.py:236-245 | For any rows the levels shown are the best prices these rows leave, best first and cut to the depth, and there are some exactly when some price has a size. |
| `RowReplay.ProblemExactly` | src/aiquanttrader/backtest/kernel.py:46-72 | Once the trades of a group hold, every check of a shown state passes exactly when its levels are positive, no bid is at or above an ask, and its exchange time is not after its receipt; otherwise the error names which of these failed first. |
| `RowReplay.ReplayTellsTheRows` | src/aiquanttrader/backtest/kernel.py:147-259 | For any rows at all: which groups yield a state, in order and none left out, what each state shows, and at which group and for which reason the replay stops. |
| `ReplayCorrectness.SideRowsRebuild` | src/aiquanttrader/backtest/conversion.py:335-355 | The CLEAR and SNAPSHOT rows of one side change the ladder at every price exactly as the reference says: quoted prices take the new size, unquoted prices no worse than the worst quoted one vanish, deeper prices keep their old size. |
| `ReplayCorrectness.ExpandApplies` | src/aiquanttrader/backtest/conversion.py:285-355 | The rows of any one event, whatever its kind, have on ladders, book times, trades and exchange time the effect of the event itself. |
| `ReplayCorrectness.RowsAtExpand` | src/aiquanttrader/backtest/conversion.py:285-364 | Selecting the rows of one local instant is the same as selecting the events of that instant and expanding them, so re-sorting by local time cannot split or reorder an event. |
| `ReplayCorrectness.TopMatches` | src/aiquanttrader/backtest/kernel.py:236-243 | The sorted, truncated ladder is the best `depth` prices of the reference book: best first, with the right sizes, and missing no better price. |
| `ReplayCorrectness.ReplayPreservesBook` | src/aiquanttrader/backtest/kernel.py:147-259 | For all valid causal events and any stable local-time order of their rows the replay ends without an error (no crossed book, no failing state check), yields one state for exactly the local times that carry an event once a book was received, in increasing order, and each state shows the reference book, the trades of its instant, its rank and the times of the last book event. |
| `ReplayCorrectness.YieldedTopIsLastBook` | src/aiquanttrader/backtest/kernel.py:236-259 | In every yielded state each side starts with the levels of the last book event received, cut to the depth, however many stale deeper levels survive. |
| `ReplayCorrectness.LastBookIsLatest` | src/aiquanttrader/backtest/conversion.py:279-364 | The book event that decides is the one received last, and among equal local times the last one in merge order. |
| `ReplayCorrectness.StateIsValid` | src/aiquanttrader/backtest/kernel.py:46-72 | Every check of the kernel state follows from best-first valid sides, an uncrossed top, bounded trades and ordered times. |
| `ReplayCorrectness.ConversionThenReplay` | src/aiquanttrader/backtest/conversion.py:254-364 | End to end: ordered, valid, causal streams convert to rows whose replay preserves the book and raises nothing. |
| `Candles.CausalMarketStructureEngine.Update` | src/aiquanttrader/features/market_structure.py:174-210 | A time that does not advance is refused and changes nothing; otherwise every timeframe takes the observation once and the revision moves by one exactly when some timeframe closed a bar. |
| `Candles.ObserveMeans` | src/aiquanttrader/features/market_structure.py:178-193 | One market state contributes the midpoint of its quotes and then every trade price, the whole traded size, and what buyers traded over what sellers did. |
| `CandleBatch.BarsGroupBy` | src/aiquanttrader/features/market_structure.py:232-286 | The bars built one observation at a time are the batch group-by: one bar per time bucket that has an observation, in increasing order, each the open, max, min, last, sums and count of its bucket. |
| `CandleBatch.LifeFolds` | src/aiquanttrader/features/market_structure.py:232-286 | One life that starts from a quarantined bar closes, on top of what was restored, exactly the folds of its observations outside the quarantined bucket, and its open candle is the fold of the newest bucket. |
| `CandleBatch.ClosedBarsAreBatchFolds` | src/aiquanttrader/features/market_structure.py:149-159 | Over any number of crash restores the closed bars of a timeframe are the last `maximum` of all bars its lives completed. |
| `CandleBatch.InterruptedBucketNeverEmitted` | src/aiquanttrader/features/market_structure.py:149-159 | The bucket a restore interrupts is never among the emitted bars, before or after the restore. |
| `CandleNesting.LargeBarsMergeSmall` | src/aiquanttrader/features/market_structure.py:174-210 | Without a restore every larger bar is the merge of the smaller bars inside it: first open, extreme prices, last close, summed volumes and counts. |
| `CandleEngine.EngineEmitsBatchFolds` | src/aiquanttrader/features/market_structure.py:149-210 | For the engine as a whole and real timestamps: after any list of lives the closed bars of each of the three timeframes are the last `maximum` batch folds, and no interrupted bucket is emitted. |
| `CandleEngine.RetainedBarsNest` | src/aiquanttrader/features/market_structure.py:174-210 | Without a restore every retained five- or fifteen-minute bar is the merge of its one-minute bars, as long as none of those has been cut from the retained list. |
| `CandleEngine.BehindKept` | src/aiquanttrader/paper/engine.py:280-288 | Observing, saving and restarting keep every saved candle at or before the bucket of the last processed observation, the standing assumption of the crash theorem. |
| `CandleEngine.BucketsAligned` | src/aiquanttrader/features/market_structure.py:241-242 | A time bucket starts at a multiple of its length. |
| `CandleEngine.CrashSafeExactlyWhen` | src/aiquanttrader/paper/engine.py:280-288 | A crash of the paper runtime can never lead to an emitted bar that misses processed observations if and only if the saved candle is in the bucket of the last processed observation or that bucket is used up; both directions, over all continuations. |
| `CandleEngine.FirstLifeIsSafe` | src/aiquanttrader/paper/engine.py:113-116 | Until the first crash every moment between two market states is a safe moment to crash, for every timeframe. |
| `CandleEngine.MidCycleSafeExactlyWhen` | src/aiquanttrader/paper/engine.py:281-288 | A first-life crash between the engine update and its separate save is harmless for a timeframe if and only if the new observation stayed in the bucket of the one before it or was the last nanosecond of its own. |
| `CandleEngine.SecondCrashCanTruncate` | src/aiquanttrader/paper/engine.py:280-288 | A concrete run with two crashes, seventy seconds in, after which the one-minute bar cut by the second crash is emitted: leaving a quarantined bucket does not move the revision, so nothing is saved. |
| `MarketStructure.ConfirmedPivots` | src/aiquanttrader/features/market_structure.py:366-380 | The pivot loop returns exactly the bars strictly above (below) all neighbours within the span on both sides, in order, and misses none at the edges. |
| `StructureReading.LevelsExactlyWhen` | src/aiquanttrader/features/market_structure.py:293-305 | The resistance is the high of the last prior bar that exceeds every bar within the span on both sides, and without one the highest high of the last ten prior bars; the support likewise; there are levels exactly when there is a prior bar. |
| `StructureReading.DirectionExactlyWhen` | src/aiquanttrader/features/market_structure.py:382-405 | Bullish exactly when the last two peaks and the last two troughs both rise, or when they do not both fall and the last prior close is above the one two bars before it; bearish likewise. |
| `StructureReading.BreaksExactlyWhen` | src/aiquanttrader/features/market_structure.py:307-312 | A break is reported exactly when the latest close leaves the range of the levels, and a change of character exactly when that close goes against the direction of the prior bars. |
| `StructureReading.SweepsExactlyWhen` | src/aiquanttrader/features/market_structure.py:309-310 | A sweep is reported exactly when the latest bar reached beyond a level and closed back on its inner side. |
| `StructureReading.GapsExactlyWhen` | src/aiquanttrader/features/market_structure.py:316-325 | A gap is reported exactly when the latest bar and the one two before it leave a range that neither touched, with that range. |
| `StructureReading.ZoneExactlyWhen` | src/aiquanttrader/features/market_structure.py:407-419 | The zone is discount, premium or equilibrium exactly as the latest close lies below one half less the band, above one half plus the band, or in between, as a fraction of the range between the levels. |
| `StructureReading.NoZoneExactlyWhen` | src/aiquanttrader/features/market_structure.py:407-411 | The zone is unknown exactly when the levels span no range. |
| `StructureReading.BlocksExactlyWhen` | src/aiquanttrader/features/market_structure.py:327-338 | An order block is reported exactly on a break, and is the low and high of the last of the eight bars before the latest that closed against the move. |
| `MarketStructure.SwingsMirror` | src/aiquanttrader/features/market_structure.py:366-380 | Swing highs of the reflected bars are the reflected swing lows, and the other way round. |
| `MarketStructure.ZoneMirrors` | src/aiquanttrader/features/market_structure.py:407-419 | Reflection turns discount into premium, leaves equilibrium and unknown, for every non-negative band. |
| `MarketStructure.DirectionMirrors` | src/aiquanttrader/features/market_structure.py:382-405 | The direction reverses under reflection, through the swing comparison and the fallback to closes. |
| `MarketStructure.AnalysisIsMirrorSymmetric` | src/aiquanttrader/features/market_structure.py:288-419 | Analysing bars reflected at any price swaps bullish and bearish exactly: direction, zone, support and resistance, breaks, changes of character, sweeps, gaps and order blocks. |
| `MarketStructure.ConfluenceMirrors` | src/aiquanttrader/features/market_structure.py:445-488 | The score of one side on a market is the score of the other side on its reflection, for the same near-level outcome. |
| `StructureReading.LongScoreExactly` | src/aiquanttrader/features/market_structure.py:438-488 | The long score is three for a rising fifteen-minute direction, and one or two for each further fact about the bars of the three timeframes, the near-level distance included; it never exceeds fifteen, so the cap of twenty is never reached. |
| `StructureReading.ShortScoreExactly` | src/aiquanttrader/features/market_structure.py:438-488 | The short score in the same way. |
| `AdmissionLedger.DeploymentAdmissionLedger.Admit` | src/aiquanttrader/governance/ledger.py:162-271 | The transaction ends in the tables and the result of the admission specification: repeat of the same active admission, refusal with every table unchanged, or insertion with the predecessor superseded; the ledger invariant is kept. |
| `AdmissionLedger.DeploymentAdmissionLedger.Renew` | src/aiquanttrader/governance/ledger.py:273-389 | The checks in their order, then three statements or none: the tables and the result are those of the renewal specification and the invariant is kept. |
| `AdmissionLedger.DeploymentAdmissionLedger.Deactivate` | src/aiquanttrader/governance/ledger.py:391-424 | Rollback and revocation move an active record to the target state and log the move; every other call fails and changes nothing. |
| `AdmissionLedger.DeploymentAdmissionLedger.ActiveRow` | src/aiquanttrader/governance/ledger.py:495-514 | The case-folded owner query finds the one active deployment of an account and vault, or nothing exactly when there is none. |
| `AdmissionLedger.DeploymentAdmissionLedger.WriteRenewal` | src/aiquanttrader/governance/ledger.py:334-388 | The renewal row, the record and the transition row are written together exactly when no uniqueness constraint is violated, and otherwise the inserted row is rolled back. |
| `AdmissionLedger.AdmitKeeps` | src/aiquanttrader/governance/ledger.py:162-271 | Admission keeps the ledger invariant: unique identities and owners, each record backed by one signed admission, renewals in one linear chain, transition rows chained to the stored state. |
| `AdmissionLedger.RenewKeeps` | src/aiquanttrader/governance/ledger.py:273-389 | An accepted renewal keeps the ledger invariant. |
| `AdmissionLedger.DeactivateKeeps` | src/aiquanttrader/governance/ledger.py:391-424 | Deactivation keeps the ledger invariant. |
| `AdmissionLedger.AdmitNeverClashes` | src/aiquanttrader/governance/ledger.py:58-114 | Without hash collisions no admission that passes the checks is ever stopped by a PRIMARY KEY or UNIQUE constraint. |
| `LedgerAuthority.LowerExactlyWhen` | src/aiquanttrader/governance/ledger.py:108-114 | Two account names compare equal exactly when they have the same length and differ at most in the case of their letters. |
| `LedgerAuthority.AdmitsExactlyWhen` | src/aiquanttrader/governance/ledger.py:171-203 | With collision-free hashing an admission changes the ledger exactly when its texts are valid, its approval is in force, both identities are unused, and its account is free or, for a production release, held by the active canary it names. |
| `LedgerAuthority.AdmissionWrites` | src/aiquanttrader/governance/ledger.py:204-271 | Such an admission writes one active record with every field of the approval, in force from now until the approval expires, and one transition row, after the end of the canary it replaces; nothing else changes. |
| `LedgerAuthority.RepeatsExactlyWhen` | src/aiquanttrader/governance/ledger.py:176-189 | A call that changes nothing succeeds exactly when the very same admission is stored and active, and returns its record. |
| `LedgerAuthority.RenewsExactlyWhen` | src/aiquanttrader/governance/ledger.py:285-389 | With collision-free hashing a renewal is accepted exactly when it is in force, its record is an active, unexpired production record that it matches in release, owner, key and current authorization, it extends the expiry, and its renewal id is unused. |
| `LedgerAuthority.RenewalWrites` | src/aiquanttrader/governance/ledger.py:343-389 | An accepted renewal adds one renewal row and one transition row from active to active and returns the stored record. |
| `LedgerAuthority.DeactivatesExactlyWhen` | src/aiquanttrader/governance/ledger.py:391-424 | Rollback and revocation succeed exactly for a stored, active deployment and one of these two targets, store that target, and log the move from active to it. |
| `LedgerGuarantees.ReleasesNeverChange` | src/aiquanttrader/governance/ledger.py:162-424 | Over any run no row disappears, capital, manifest, configuration, image, account and identities of a deployment never change, and an inactive record changes in nothing. |
| `LedgerGuarantees.FailureRollsBack` | src/aiquanttrader/governance/ledger.py:561-570 | An operation that fails leaves all three tables as they were. |
| `LedgerGuarantees.NeverRevived` | src/aiquanttrader/governance/ledger.py:426-450 | Once a registered admission has been refused, for its expiry too, it is refused after any further run on a clock that does not run backwards. |
| `LedgerAuthority.DeactivatedForGood` | src/aiquanttrader/governance/ledger.py:391-450 | After a rollback or a revocation the guard refuses the deployment at every instant after every further run, whatever the clock does. |
| `LedgerAuthority.SupersededForGood` | src/aiquanttrader/governance/ledger.py:196-217 | After a production admission the guard refuses the canary it replaced at every instant after every further run. |
| `LedgerAuthority.AuthorizedExactlyWhen` | src/aiquanttrader/governance/ledger.py:426-450 | Over every run from the empty ledger the guard accepts an admission exactly when its own digest is stored, its last transition row leads to active, and the instant is before the expiry of its last authorization. |
| `LedgerAuthority.OnlyItsOwnRecord` | src/aiquanttrader/governance/ledger.py:443-449 | Even if digests collide, the guard accepts an admission only under the approval id and the digest of the stored record. |
| `LedgerGuarantees.RevivedByABackwardClock` | src/aiquanttrader/governance/ledger.py:273-389 | The clock assumption is needed: any accepted renewal stamped before a refusal, and expiring after it, makes the refused admission acceptable again. |
| `LedgerExamples.RevivalIsReachable` | src/aiquanttrader/governance/ledger.py:273-389 | A run from the empty ledger in which that happens: refused as expired, then accepted at the same instant after a renewal with an earlier stamp. |
| `LedgerGuarantees.SingleOwner` | src/aiquanttrader/governance/ledger.py:108-114 | In every reachable ledger at most one deployment is active per case-folded account and vault. |
| `LedgerGuarantees.RecordsShareNothing` | src/aiquanttrader/governance/ledger.py:63-67 | No two stored records share an approval, an admission digest or a current authorization. |
| `LedgerGuarantees.IdentitiesUsedOnce` | src/aiquanttrader/governance/ledger.py:176-189 | An admission that changes the ledger uses an approval id and a deployment id that no earlier record of the run used. |
| `LedgerGuarantees.ProductionSupersedesItsCanary` | src/aiquanttrader/governance/ledger.py:190-271 | A production admission supersedes exactly the active canary it names, inserts its own record and changes nothing else. |
| `LedgerGuarantees.RenewalOnlyExtends` | src/aiquanttrader/governance/ledger.py:296-389 | An applied renewal lands while the authority is alive, moves the expiry strictly forward, counts up, and changes no other record and no other field. |
| `LedgerGuarantees.AuthorityIsContinuous` | src/aiquanttrader/governance/ledger.py:296-389 | In every reachable ledger the authorizations of a deployment form one chain from its admission: each renewal names the one before, lands before it lapses and expires strictly later, so some authorization covers every instant from admission to the stored expiry. |
| `LedgerGuarantees.TransitionsTellTheWholeStory` | src/aiquanttrader/governance/ledger.py:535-559 | In every reachable ledger the transition rows of a deployment start from nothing, each begins where the previous one ended, they end in the stored state, and there is one row for the admission, one per renewal and one for the final move if it was made. |
| `LedgerGuarantees.StoredRecordsReadBack` | src/aiquanttrader/governance/models.py:212-245 | In a reachable ledger a record passes the checks applied when it is read back if and only if it is not a superseded one whose composed reason exceeds 512 characters. |
| `LedgerGuarantees.StaysReadableExactlyWhen` | src/aiquanttrader/governance/ledger.py:196-217 | From a ledger that can be read, every operation leaves one that can be read, except an accepted production admission for which the composed reason is longer than 512 characters; both directions. |
| `LedgerExamples.LongReasonBreaksReading` | src/aiquanttrader/governance/ledger.py:204-217 | Two admissions from the empty ledger, the second with the longest reason allowed, leave a canary record that cannot be read back. |
| `RenewalApproval.TipVisitedOnce` | src/aiquanttrader/governance/ledger.py:296-389 | With collision-free hashing no stored renewal extends the current authorization: the chain never visits an authorization twice and never returns to the admission. |
| `RenewalApproval.ReplayCheckNeverFires` | src/aiquanttrader/governance/ledger.py:334-341 | With collision-free hashing the ledger's own replay check can never be the one that refuses a renewal. |
| `LedgerAuthority.VerifiesExactlyWhen` | src/aiquanttrader/governance/approval.py:249-331 | A renewal verifies exactly when it is genuine, in force, signed with the key the record trusts, and extends the active, unexpired production record that it matches in everything. |
| `RenewalApproval.VerifiedPassesTheChecks` | src/aiquanttrader/governance/approval.py:249-331 | With collision-free hashing a renewal that verifies against the current record passes every check of the ledger, the replay check included. |
| `RenewalApproval.RenewalAppliesExactlyWhen` | src/aiquanttrader/governance/ledger.py:334-389 | A renewal that passes the checks is applied if and only if its renewal id was not used before; the failure is then the uniqueness constraint. |
| `RenewalApproval.VerifiedRenewalApplies` | src/aiquanttrader/governance/approval.py:239-331 | A renewal that verifies against the ledger's current record is accepted by the ledger at that instant if and only if its renewal id is fresh. |
| `RenewalApproval.AppliedRenewalNeverVerifiesAgain` | src/aiquanttrader/governance/approval.py:239-331 | A renewal that has been applied never verifies again, at no later instant and against no later key: it cannot be replayed. |
| `ExecutionJournal.ExecutionJournal.Begin` | src/aiquanttrader/execution/journal.py:143-168 | Creates the order row and its first event together; a wrong state, a known intent, a used client order id or a used event id changes nothing. |
| `ExecutionJournal.ExecutionJournal.Append` | src/aiquanttrader/execution/journal.py:170-203 | Follows the transition table or repeats the state, keeps identifiers the event leaves out, replaces the filled quantity, and writes row and event together or not at all. |
| `ExecutionJournal.ExecutionJournal.MarkStaleSubmissionsUnknown` | src/aiquanttrader/execution/journal.py:250-282 | Moves every stale order to unknown, each once and in whatever order the rows come back, or changes nothing; the count is the number of stale orders. |
| `ExecutionJournal.TableReadsBackwards` | src/aiquanttrader/execution/journal.py:30-97 | The transition table read by target agrees with it read by origin on every pair of states: what may be filled, accepted, canceled, rejected, denied or left unknown, and from where. |
| `ExecutionJournal.BeginsExactlyWhen` | src/aiquanttrader/execution/journal.py:143-168 | A first event is accepted exactly when it is a pending submission whose intent, client order id and event id nobody uses, and then adds one event row and one order row and touches no other. |
| `ExecutionJournal.AppendsExactlyWhen` | src/aiquanttrader/execution/journal.py:170-203 | A further event is accepted exactly when its order is stored, its state is the current one or may follow it, and its ids are free; identifiers it leaves out keep their stored values. |
| `ExecutionJournal.SweepWrites` | src/aiquanttrader/execution/journal.py:250-282 | A successful sweep moves exactly the listed orders to unknown at their own instants, keeps everything else about them, and adds one event for each in order. |
| `ExecutionAudit.CollectTimelines` | src/aiquanttrader/acceptance/collector.py:491-507 | Grouping succeeds exactly when no intent's time moves backward, and the groups are then the events of each intent in order. |
| `ExecutionAudit.CheckSnapshots` | src/aiquanttrader/acceptance/collector.py:510-532 | The row-by-row comparison accepts exactly the order tables in which every row is the last state, last time, last filled quantity and last present identifiers of its events. |
| `ExecutionAudit.CountResolved` | src/aiquanttrader/acceptance/collector.py:533-549 | Counts exactly the intents with an unknown outcome that is followed by a resolving event and no further unknown one. |
| `ExecutionAudit.CountDuplicates` | src/aiquanttrader/acceptance/collector.py:550-552 | The number of duplicate venue orders is the number of distinct (venue order, intent) pairs minus the number of venue orders. |
| `ExecutionAudit.ExecutionStats` | src/aiquanttrader/acceptance/collector.py:439-556 | The audit succeeds exactly when its five checks hold, returns the defined counts, and otherwise returns an error that is true of the evidence. |
| `AuditEvidence.AcceptsExactlyWhen` | src/aiquanttrader/acceptance/collector.py:471-532 | The auditor accepts exactly the evidence in which row numbers count up, columns repeat their payloads, instants lie in the run and never fall within an intent, every intent has one order row, and each order row says what the last event of its intent says, under the last ids its events name. |
| `JournalAgreement.RunKeeps` | src/aiquanttrader/execution/journal.py:143-282 | Every run of begin, append and sweep keeps the journal sound: rows are the fold of their events, every intent walks the transition table from pending submission, event and client ids are unique. |
| `JournalAgreement.SweepTakesTableEdges` | src/aiquanttrader/execution/journal.py:30-97 | The sweep does not consult the transition table, yet every state it looks for may move to unknown by it. |
| `JournalAgreement.AuditorAcceptsExactly` | src/aiquanttrader/acceptance/collector.py:471-530 | Whatever any run of the journal wrote, the auditor accepts it if and only if every event lies in the run interval and no intent's time moves backward: inventory and snapshot checks can never fail. |
| `JournalAgreement.AllSettledAllResolved` | src/aiquanttrader/execution/journal.py:223-238 | When the journal counts no unresolved command, the auditor finds every unknown outcome resolved. |
| `JournalAgreement.TerminalAbsorbs` | src/aiquanttrader/execution/journal.py:30-97 | After a terminal state an intent only ever repeats that state. |
| `JournalAgreement.FinishedForGood` | src/aiquanttrader/execution/journal.py:170-203 | In every reachable journal a finished order stays in the same terminal state, whatever arrives afterwards. |
| `ExecutionGateway.ExecutionGateway.ExecuteIntent` | src/aiquanttrader/execution/strategy.py:155-238 | What every outcome of a call leaves in the journal and sends: a denial leaves PENDING_SUBMIT then DENIED and sends nothing, a refused approval the same under its client id, a delivered order PENDING_SUBMIT then SUBMITTED and one adapter call, a raising adapter a third event UNKNOWN, and a failed write exactly the events before it; other orders are untouched. |
| `ExecutionGateway.CallIsARun` | src/aiquanttrader/execution/strategy.py:155-238 | An uninterrupted call is one of the runs the safety theorem covers. |
| `ExecutionGateway.DispatchedAtMostOnce` | src/aiquanttrader/execution/strategy.py:155-238 | At any point of any run, with crashes between any two steps and sweeps and order events in between: no intent and no client order id reaches the adapter twice, none that was durably denied does, and each dispatched order has its reserved client order id and its submission in the durable journal. |
| `ExecutionGateway.UnwrittenDenialIsForgotten` | src/aiquanttrader/execution/strategy.py:155-186 | A concrete run: a risk denial that was not journaled before a crash does not stop a later allowed call for the same intent. |
| `DenialProtection.DenialProtectsExactlyWhen` | src/aiquanttrader/execution/strategy.py:155-210 | In every safe state in which a call is about to record a denial, no continuation with crashes, repeated calls and other writers ever hands the intent to the adapter if and only if the identity of the intent is durable in the journal. |
| `DenialProtection.CrashAndCallAgain` | src/aiquanttrader/execution/strategy.py:155-186 | For every intent the journal does not hold there is a valid continuation that starts with a crash and hands it to the adapter. |
| `DenialProtection.WrittenDenialProtects` | src/aiquanttrader/execution/strategy.py:155-186 | Once the first write of a risk denial has succeeded the intent is protected for good. |
| `DenialProtection.RefusalAlwaysProtects` | src/aiquanttrader/execution/strategy.py:187-210 | A refused approval always protects its intent, because the order was reserved durably before it was asked for. |
| `LiveDrain.RiskManagedExecutionStrategy.OnStart` | src/aiquanttrader/execution/strategy.py:114-140 | A start with open orders raises the startup drain and asks for one cancel of everything. |
| `LiveDrain.RiskManagedExecutionStrategy.ProcessLiveMarket` | src/aiquanttrader/execution/strategy.py:552-588 | One market cycle takes the branch and leaves the flags and the cancel window that the step function gives, on every failure path. |
| `LiveDrain.RiskManagedExecutionStrategy.ConsumeCancelBudget` | src/aiquanttrader/execution/strategy.py:804-811 | The deque loop drops exactly the instants a second old and accepts exactly when fewer than the limit remain. |
| `LiveDrain.RiskManagedExecutionStrategy.FailClosed` | src/aiquanttrader/execution/strategy.py:707-719 | A cycle that raised with open orders is one more cancel of everything for the budget and leaves the drain flags alone. |
| `LiveDrain.RiskManagedExecutionStrategy.OnOrderCanceled` | src/aiquanttrader/execution/strategy.py:441-444 | A canceled order ends a pending risk cancel and never the startup drain. |
| `LiveDrain.DecidesExactlyWhen` | src/aiquanttrader/execution/strategy.py:552-588 | A cycle reaches a decision if and only if risk allows one and no pending drain still sees open orders. |
| `LiveDrain.ChargesExactlyWhen` | src/aiquanttrader/execution/strategy.py:804-811 | A cancel is accepted exactly when fewer than the limit were accepted within the last second. |
| `LiveDrain.CycleExactly` | src/aiquanttrader/execution/strategy.py:552-588 | Every outcome of a market cycle and what it leaves: a wanted cancel that budget or adapter refuses fails the cycle, otherwise a cancel is pending after it; the startup drain ends exactly with a decision; the cancel window changes exactly when a cancel was wanted. |
| `LiveDrain.OpenOrdersAreCancelled` | src/aiquanttrader/execution/strategy.py:566-576 | A risk state that is not active never leaves open orders alone: the cycle fails or a cancel of everything is pending after it. |
| `LiveDrain.StartExactly` | src/aiquanttrader/execution/strategy.py:114-140 | A start drains exactly when orders are open, and has a cancel pending exactly when one was sent or was pending before. |
| `LiveDrain.NoDecisionBeforeEmptySnapshot` | src/aiquanttrader/execution/strategy.py:552-588 | After a start with open orders no cycle decides before some cycle has seen no open order, whatever risk, the venue, the budget and the order events do. |
| `LiveDrain.CancelsArePaced` | src/aiquanttrader/execution/strategy.py:804-811 | On a clock that does not run backwards no more cancels than the limit are accepted within any second. |
| `BigEndian.UnpackPack` | src/aiquanttrader/market_data/raw.py:157-169 | A length or count that fits its field is read back as written. |
| `RawArchive.RoundTrip` | src/aiquanttrader/market_data/raw.py:269-315 | Reading the written bytes returns exactly the records, without an error. |
| `RawArchive.PrefixRefused` | src/aiquanttrader/market_data/raw.py:269-315 | Every strict prefix of a finished stream is refused as truncated, after exactly the records that are complete in it. |
| `RawArchive.ExtensionRefused` | src/aiquanttrader/market_data/raw.py:307-315 | Every non-empty extension of a finished stream is refused as trailing data, after all its records. |
| `RawArchive.StreamInjective` | src/aiquanttrader/market_data/raw.py:157-176 | Different record lists within the limits never give the same bytes. |
| `RawArchive.ReadsBackExactlyWhen` | src/aiquanttrader/market_data/raw.py:157-176 | A stream that can be written reads back if and only if every record keeps the reader's metadata and payload limits, which the writer does not check. |
| `RawArchive.OnlyTheWrittenStream` | src/aiquanttrader/market_data/raw.py:294-315 | A stream accepted against the digest of some records is the written stream, or the bytes it was hashed over and the written ones are an explicit collision of the digest. |
| `ArchiveFormat.AcceptsExactlyWhen` | src/aiquanttrader/market_data/raw.py:269-315 | The reader returns given records without an error exactly when the bytes are the magic, one frame per record within the limits whose metadata decodes to the record and describes its payload, and the footer that counts the frames and carries their digest. |
| `RawSegment.RawSegmentWriter.Append` | src/aiquanttrader/market_data/raw.py:130-169 | One accepted frame adds exactly its block; a closed writer, a frame over the limit and a receipt before the start add nothing. |
| `RawSegment.RawSegmentWriter.Finalize` | src/aiquanttrader/market_data/raw.py:171-206 | The finished stream is the stream of the written records and the manifest describes them. |
| `ArchiveFormat.ManifestMeans` | src/aiquanttrader/market_data/raw.py:188-205 | The manifest counts the records and the payload bytes, carries the digest of the blocks, and spans from the start to the latest receipt. |
| `RawSegment.ReadExact` | src/aiquanttrader/market_data/raw.py:234-243 | However the stream hands out its chunks, the loop returns exactly the next bytes, or reports truncation exactly when fewer remain. |
| `RawSegment.RawSegmentReader.Records` | src/aiquanttrader/market_data/raw.py:269-315 | The reading loop with its running digest and count yields the records and the error of the specification. |
| `RawSegment.RawSegmentReader.Verify` | src/aiquanttrader/market_data/raw.py:252-267 | Verification accepts exactly the streams whose records and counts match the manifest. |
| `ArchiveFormat.VerifiesExactlyWhen` | src/aiquanttrader/market_data/raw.py:252-267 | A segment verifies exactly when its bytes hold, in that format, as many records and payload bytes as its manifest says, under its digest. |
| `RawSegment.VerifiedIsTheFinalized` | src/aiquanttrader/market_data/raw.py:252-315 | A finished segment's manifest vouches for its own stream and for no other, up to an explicit collision of the digest; both directions. |
| `AuditLog.ParseOperationalPayload` | src/aiquanttrader/acceptance/audit.py:111-140 | The parsing loop computes the specification: size bound, final newline, event bound, canonical lines, the hash link and the expected component, first failure first. |
| `AuditLog.OperationalEvidenceLog.Append` | src/aiquanttrader/acceptance/audit.py:32-81 | An append succeeds exactly when the linked event is valid and the record fits the size bound; it then adds exactly one event to the readable history, and otherwise leaves the file alone. |
| `AuditLog.AcceptsExactlyLinked` | src/aiquanttrader/acceptance/audit.py:121-140 | The lines accepted are exactly the canonical lines of a linked sequence of events. |
| `AuditLog.ParsesExactlyWhen` | src/aiquanttrader/acceptance/audit.py:111-140 | Bytes parse to given events exactly when they fit the bounds, end with a newline, split into the canonical lines of these events, and the events are linked. |
| `AuditLog.AppendParses` | src/aiquanttrader/acceptance/audit.py:48-72 | An accepted append makes the log parse to the old events followed by the new one, so no append can leave the log unreadable. |
| `AuditLog.AppendsExactlyWhen` | src/aiquanttrader/acceptance/audit.py:48-72 | An append adds a given event exactly when the log is readable, the event is the caller's fields under the next number, the last digest and the owner, it is valid, and its record fits. |
| `AuditLog.WrittenParsesExactlyWhen` | src/aiquanttrader/acceptance/audit.py:18-19 | What the log wrote parses back if and only if it fits the byte bound; the event bound can never be the reason for a refusal. |
| `AuditLog.ReadableIsWrittenExactlyWhen` | src/aiquanttrader/acceptance/audit.py:118-127 | A readable log is byte for byte what was written if and only if it contains no carriage return. |
| `AuditLog.SameTipSameLog` | src/aiquanttrader/acceptance/audit.py:121-140 | With collision-free hashing two readable logs with the same last digest hold the same events; if one of them has no carriage return, they are the same bytes if and only if the other has none. |
| `AuditLog.CarriageReturnIsAccepted` | src/aiquanttrader/acceptance/audit.py:118-127 | Every non-empty log, rewritten with its records ended by a carriage return and a newline, is other bytes and reads as the same history as long as it fits. |
| `AuditLog.TornAppendIsIncomplete` | src/aiquanttrader/acceptance/audit.py:111-117 | Whatever strict non-empty part of an appended record reached the file, reading refuses the log as incomplete. |
| `LiveAssembler.LiveMarketStateAssembler.ObserveEvent` | src/aiquanttrader/paper/market.py:67-101 | One event changes pending trades, counters, depth and clocks, and emits or raises, as the step function says. |
| `LiveAssembler.CandidateValid` | src/aiquanttrader/paper/market.py:109-199 | A state built from a valid book, valid older depth and trades received by then passes every kernel state check and is not ahead of its receipt. |
| `LiveAssembler.EmitFailsExactlyWhen` | src/aiquanttrader/paper/market.py:162-199 | Building a state fails if and only if some waiting trade was received after the book that triggers it. |
| `LiveAssembler.EmitsExactlyTheExpected` | src/aiquanttrader/paper/market.py:67-205 | On ordered input the assembler never fails and emits exactly the states the event history calls for: one per fresh book that is due, with every trade received since the previous state and still fresh, in arrival order, and depth from the last fresh snapshot. |
| `EmittedStates.EmittedStatesShow` | src/aiquanttrader/paper/market.py:67-199 | For every run: which books trigger a state (the first fresh one, then each fresh one received at least the interval after the last trigger), and what each state shows: its number and times, the trades since the last trigger field by field, the first levels of a snapshot, or the quote followed by the strictly worse levels of the last usable snapshot, cut to the depth. |
| `EmittedStates.CountersExactly` | src/aiquanttrader/paper/market.py:80-101 | The exclusion counters count exactly the snapshots and quotes that arrived too late, and the quote time is that of the last fresh quote. |
| `EmittedStates.DepthMarkExactlyWhen` | src/aiquanttrader/paper/market.py:109-160 | An emitted state is marked as using depth exactly when its book is a snapshot or a usable snapshot stands behind its quote. |
| `EmittedStates.RefusesExactlyWhen` | src/aiquanttrader/paper/market.py:67-90 | An event is refused before any state is built exactly when a book's receipt does not advance or an exchange time follows its receipt, and then changes nothing. |
| `LiveAssembler.EmittedStatesMeetTheNextStage` | src/aiquanttrader/paper/market.py:103-199 | Every emitted state is valid, consecutively numbered, at least the minimum interval after the one before, and within the age limit. |
| `LiveAssembler.TradesAreConserved` | src/aiquanttrader/paper/market.py:67-101 | Every trade that arrived was emitted once, counted stale once or is still waiting, and emitted trades keep their arrival order, whatever the order of receipts. |
| `FeatureWindows.PopIsSince` | src/aiquanttrader/features/engine.py:255-258 | On a window in time order the popping loop is the filter by the cutoff. |
| `FeatureWindows.WindowsAreFilters` | src/aiquanttrader/features/engine.py:107-165 | After any run on increasing inputs the flow, midpoint, return, spread and markout windows are the whole history filtered by their spans, the pending trades are those not yet a horizon old, and every older signed trade was marked out once, in order, at the first input past its horizon. |
| `FeatureEngine.IncrementalFeatureEngine.Update` | src/aiquanttrader/features/engine.py:76-192 | An input that does not advance, is stamped before its receipt or is too old is refused and changes nothing; any other moves every window on and reports the ratios of the new windows. |
| `FeatureEngine.MicropriceBetween` | src/aiquanttrader/features/engine.py:95-106 | The microprice lies strictly between the quotes. |
| `FeatureEngine.BookRatiosInRange` | src/aiquanttrader/features/engine.py:32-34 | Queue and book imbalance of every reported snapshot lie in [-1, 1] and the microprice strictly inside the spread. |
| `FeatureEngine.FlowRatiosInRange` | src/aiquanttrader/features/engine.py:179-192 | After any run the flow imbalance lies in [-1, 1], the aggressor ratio in [0, 1] and the pressures are not negative. |
| `FeatureMeaning.SnapshotMeans` | src/aiquanttrader/features/engine.py:95-197 | What is reported for an accepted state after any inputs: mid, spread and imbalances are those of its own book, positive exactly when the bid is larger; pressures, signed volume and flow ratios are those of the buyers' and sellers' sizes in the window; the adverse selection is the mean markout in its window; the warm-up counts every input. |
| `FeatureMeaning.MicropriceLeans` | src/aiquanttrader/features/engine.py:115-117 | The microprice is the size-weighted mean with each quote weighed by the other side, so it lies above the mid exactly when the bid is larger. |
| `FeatureMeaning.SignedIsSided` | src/aiquanttrader/features/engine.py:131-147 | The trades that wait for a markout are exactly those with a known aggressor, in order, plus one for a buyer and minus one for a seller, at their own price. |
| `FeatureMeaning.MarkoutIs` | src/aiquanttrader/features/engine.py:179-188 | A markout is the move of the mid in the trade's direction in ten-thousandths of its price, positive exactly when the mid moved that way. |
| `FeatureMeaning.MovesAre` | src/aiquanttrader/features/engine.py:156-160 | Each input but the first records, against the one before it, the logarithm of the ratio of the mids and the size of the move as a part of the new mid. |
| `FeatureEngine.AcceptsLiveStates` | src/aiquanttrader/features/engine.py:83-94 | The engine accepts every state the live assembler emits, in order, when both use the same age limit. |
| `FeatureMeaning.AcceptsExactlyWhen` | src/aiquanttrader/features/engine.py:83-94 | After any inputs a state is accepted exactly when it is newer than the last one, not computed before its receipt, and its book and every trade are within the age limit. |
| `PaperJournal.Journal.RecordCycle` | src/aiquanttrader/paper/journal.py:283-322 | Of the tables kept here, fills and commands are inserted together, or a repeated fill id, a repeated sequence or a fault leaves them as they were; order and account rows, with their constraints, are part of the fault. |
| `PaperJournal.Journal.RecordCheckpoint` | src/aiquanttrader/paper/journal.py:537-552 | The checkpoint of a watchdog cycle is a transaction of its own that moves the source position or nothing. |
| `PaperJournal.Journal.RecordEngineCycle` | src/aiquanttrader/paper/journal.py:324-448 | Of the tables kept here, fills, commands, markouts, the evaluation and the checkpoint position are committed together or not at all; orders, decisions, features and account rows, with their constraints, are part of the fault. |
| `PaperRecovery.PaperTradingEngine.ResolveMarkouts` | src/aiquanttrader/paper/engine.py:652-669 | Exactly the pending fills whose horizon has passed are marked out and forgotten. |
| `PaperRecovery.PaperTradingEngine.OnMarket` | src/aiquanttrader/paper/engine.py:236-392 | One market cycle leaves journal and memory as the step function says, on rejection, commit and failed commit. |
| `PaperRecovery.PaperTradingEngine.OnWatchdog` | src/aiquanttrader/paper/engine.py:423-460 | One watchdog cycle leaves journal and memory as the step function says: nothing when no order changed and no fill arrived, otherwise the cycle and then the checkpoint, each of which can fail. |
| `PaperRecovery.MarketCommitStep` | src/aiquanttrader/paper/journal.py:324-448 | With memory in step, the kept tables refuse a market cycle if and only if it repeats a fill id, and a committed one leaves memory in step. |
| `PaperRecovery.CycleStep` | src/aiquanttrader/paper/journal.py:283-322 | The same for the first transaction of a watchdog cycle. |
| `PaperCommits.MarketExactly` | src/aiquanttrader/paper/engine.py:236-392 | With memory in step, a market cycle is refused exactly when its source position or its instant does not advance, and fails exactly on a storage fault or a fill id that is not new; neither touches the journal. |
| `PaperCommits.CommittedMarketLeaves` | src/aiquanttrader/paper/journal.py:324-448 | A committed market cycle leaves exactly its fills under their ids, its orders numbered on from the stored commands, its evaluation, its source position, and one markout for every fill at least a horizon old that had none. |
| `PaperCommits.CommitsExactlyWhen` | src/aiquanttrader/paper/journal.py:101-161 | Even with memory out of step, a market transaction over a journal with distinct numbers commits exactly when its fill ids are new, command and evaluation numbers stay distinct, and every markout has its fill and a free key. |
| `PaperCommits.MarkoutSign` | src/aiquanttrader/paper/engine.py:652-669 | A markout in the journal is positive exactly when the mark moved in the direction of its fill. |
| `PaperCommits.WatchdogExactly` | src/aiquanttrader/paper/engine.py:423-460 | With memory in step, a watchdog cycle leaves its fills and numbered orders unless it had nothing to do or its first transaction failed, and commits only if the checkpoint does too. |
| `PaperCommits.StartExactly` | src/aiquanttrader/paper/engine.py:131-175 | A start over a sound journal fails only on a storage fault and leaves one numbered command for each open order. |
| `PaperRecovery.MemoryMatchesJournal` | src/aiquanttrader/paper/engine.py:131-175 | Over any run in which a failed commit ends the process, across crashes and restarts: pending markouts in memory are the durable fills without a markout, no markout is early or without a fill, and command and evaluation numbers are exactly zero to n-1. |
| `PaperRecovery.MemoryMatchesJournalFromTheStart` | src/aiquanttrader/paper/engine.py:131-175 | The same for every such run from the empty journal. |
| `PaperFailures.InStepExactlyWhen` | src/aiquanttrader/paper/engine.py:440-460 | After any watchdog cycle, failed or not, memory is in step with the journal if and only if the cycle became durable or carried no command and only fills that were pending already; a failed checkpoint alone does no harm. |
| `PaperFailures.LostCommandsSkip` | src/aiquanttrader/paper/engine.py:440-460 | After a lost watchdog commit the next committed market cycle skips exactly as many command numbers as commands were lost. |
| `PaperFailures.LostNumbersStayUnused` | src/aiquanttrader/paper/engine.py:634-640 | Whatever the same process does afterwards, no command ever gets one of the lost numbers. |
| `PaperFailures.LostFillStays` | src/aiquanttrader/paper/engine.py:432-436 | A fill of a lost commit stays pending and never becomes durable while the process goes on and does not deliver it again. |
| `PaperFailures.FirstCyclePastTheHorizonFails` | src/aiquanttrader/paper/engine.py:652-669 | The first accepted market cycle past the horizon of a lost fill fails and writes nothing. |
| `PaperFailures.JournalHoldsAnyway` | src/aiquanttrader/paper/service.py:239-263 | Over every run, whatever commits fail and whatever the process survives, as long as an id always names the same fill: no markout is early or without its fill, fills are stored under their ids, evaluation numbers are exactly zero to n-1 and command numbers strictly increase. |
| `PaperFailures.NumbersHoldAnyway` | src/aiquanttrader/paper/service.py:239-263 | The part of this that needs no assumption about fill ids: numbers, stored ids, and that every markout has its fill. |
| `PaperFailures.ReusedIdMarksEarly` | src/aiquanttrader/paper/engine.py:432-436 | Why the times of markouts need it: for any durable fill and any earlier one of the same id, a lost cycle and one market cycle mark the durable fill early. |
| `PaperFailures.JournalHoldsFromTheStart` | src/aiquanttrader/paper/service.py:239-263 | The same for every run from the empty journal. |
| `PaperRecovery.RestartRebuilds` | src/aiquanttrader/paper/engine.py:131-155 | A restart rebuilds from the journal exactly the memory that was in step with it, except the last observed time. |
| `PaperRecovery.MarkoutsAreFinal` | src/aiquanttrader/paper/journal.py:740-752 | A durable markout is never replaced, so each fill has at most one per horizon. |
| `PaperFailures.SourcesCommitOnce` | src/aiquanttrader/paper/engine.py:244-247 | When every market state carries its source position, no position is committed twice, restarts, failed commits and surviving processes included. |
| `PaperFailures.SourcesCommitOnceFromTheStart` | src/aiquanttrader/paper/engine.py:244-247 | The same for every run from the empty journal. |
| `PaperFailures.SurvivingEngineLeavesAGap` | src/aiquanttrader/paper/service.py:277-300 | A concrete run: one failed watchdog commit and then a market cycle of the same process; command number zero is never used. |
| `Integrity.IntegrityTracker.IsDuplicateTrade` | src/aiquanttrader/market_data/integrity.py:105-113 | A known key is reported and moved to the end of the table, a new one is added and the oldest evicted when the table is over full. |
| `Integrity.IntegrityTracker.ObserveFrame` | src/aiquanttrader/market_data/integrity.py:24-75 | One frame adds the issues, times and keys of the specification and returns the events that are not duplicates. |
| `Integrity.TableIsMostRecent` | src/aiquanttrader/market_data/integrity.py:105-113 | After any frames the key table is exactly the `duplicate_window` most recently observed distinct keys, in that order, and never larger. |
| `Integrity.IssuesMean` | src/aiquanttrader/market_data/integrity.py:45-75 | A trade is flagged as a duplicate exactly when its key is among those most recent keys, and an event as a regression exactly when its type was seen with a later time. |
| `Integrity.GapsExactlyWhen` | src/aiquanttrader/market_data/integrity.py:24-44 | A frame raises one cadence anomaly exactly when it came more than the threshold after the last frame of its channel. |
| `Integrity.KeysAgreeExactlyWhen` | src/aiquanttrader/market_data/integrity.py:105-106 | Two trades share a key exactly when they share id and transaction, as long as ids hold no colon. |
| `Integrity.AcceptedAreFirstOccurrences` | src/aiquanttrader/market_data/integrity.py:45-75 | While no more distinct keys were seen than the table holds, the accepted events are exactly those that do not repeat a trade key, in order. |
| `PositionLog.CompressionIsLossless` | src/aiquanttrader/backtest/replay.py:231-239 | The replace, skip or append log is strictly increasing and gives at every instant the position of the last observation at or before it in the uncompressed history. |
| `PositionLog.BisectRight` | src/aiquanttrader/backtest/replay.py:40-54 | The bisection returns how many entries lie at or before the instant. |
| `PositionLog.CalculateFundingCashflows` | src/aiquanttrader/backtest/replay.py:27-54 | Cashflows are computed exactly for a non-negative multiplier and strictly increasing inputs, one per settlement, from the position held at its instant. |
| `PositionLog.PayerExactlyWhen` | src/aiquanttrader/backtest/replay.py:40-54 | At a positive rate the long side pays and the short side receives, at a negative rate the other way round, and nobody pays otherwise. |
| `PositionLog.OppositePays` | src/aiquanttrader/backtest/replay.py:40-54 | Opposite positions pay each other: their cashflows cancel. |
| `PositionLog.SameCashflows` | src/aiquanttrader/backtest/replay.py:27-54 | The cashflows from the compressed log are those of the uncompressed history. |
| `PositionLog.HftReplaySession.RecordPosition` | src/aiquanttrader/backtest/replay.py:231-239 | Recording appends one observation at the clamped clock to the history the log stands for. |
| `PositionLog.HftReplaySession.CurrentTimestamp` | src/aiquanttrader/backtest/replay.py:84-90 | The session clock is the highest engine clock seen, so it never runs backwards. |
| `PositionLog.HftReplaySession.FundingCashflows` | src/aiquanttrader/backtest/replay.py:163-212 | Refused exactly when the session has not started, a settlement lies before its first observation or after the end of the data, the multiplier is negative or settlements do not increase; otherwise the funding of the uncompressed observations. |
| `WalkForward.PlanWalkForward` | src/aiquanttrader/backtest/validation.py:19-75 | The planning loop ends and yields floor((holdout start - start - span) / step) + 1 folds when the span fits and none otherwise, refused when that is below the minimum. |
| `WalkForward.PlannedExactlyWhen` | src/aiquanttrader/backtest/validation.py:27-75 | A plan is made exactly when the range holds the holdout and the minimum number of folds before it; the other two refusals have their exact conditions. |
| `WalkForward.FoldsAreLaid` | src/aiquanttrader/backtest/validation.py:37-65 | Fold number i starts i steps in and each of its five windows has the length its policy asks for; the holdout is the end of the range. |
| `WalkForward.PlanIsValid` | src/aiquanttrader/backtest/models.py:149-216 | Every check of the folds and of the plan passes once the minimum number of folds is met. |
| `WalkForward.PlanIsComplete` | src/aiquanttrader/backtest/validation.py:37-65 | No further fold would fit before the holdout. |
| `WalkForward.TestsAreDisjoint` | src/aiquanttrader/backtest/validation.py:37-65 | Test windows of different folds never overlap, follow each other in order and end by the holdout. |
| `WalkForward.TrainingDoesNotLeak` | src/aiquanttrader/backtest/models.py:175-194 | No label of a training sample reaches the validation or the test window of its fold. |
| `WalkForward.ValidationLeaksExactlyWhen` | src/aiquanttrader/backtest/models.py:175-194 | Some validation label reaches the test window of its fold if and only if the embargo is shorter than the label horizon, which no check forbids. |
| `WalkForward.SelectCandidate` | src/aiquanttrader/backtest/validation.py:78-111 | Refused for the first of: no scores, no metric, an empty id, a score that is no finite number; otherwise the candidate preferred to every other by score and then by smaller id. |
| `WalkForward.WinsExactlyWhen` | src/aiquanttrader/backtest/validation.py:92-97 | The winner is the candidate whose score none beats and, among equal scores, whose id sorts first. |
| `WalkForward.BeforeExactlyWhen` | src/aiquanttrader/backtest/validation.py:92-97 | One id sorts before another exactly when it is a proper beginning of it or has the smaller character at the first place where they differ. |
| `WalkForward.OneWinner` | src/aiquanttrader/backtest/validation.py:78-111 | The selection does not depend on the order in which the scores are visited. |
| `WalkForward.OnlyTheWinnerSeesTheHoldout` | src/aiquanttrader/backtest/validation.py:114-124 | With a collision-free digest access to the holdout is granted exactly to the winner under the very plan of the selection. |

## Left out

- Rounding: floats and Decimals are reals, so float overflow, two Decimals that become one float key, and the text form of a Decimal in a table are not modelled.
- Transcendental and statistical outputs of the features: realized volatility and its regime, the average move, spread change and z-score, VAMP and weighted mid, fill probabilities, and the average range of the structure engine.
- Storage engines: SQLite, Parquet, Zstandard, fsync, file locks and integrity pragmas; only atomic commit, rollback, primary keys and unique indexes are kept, and the version 1 migration of the ledger is not.
- Cryptography: Ed25519 verification is a boolean, digests are functions.
- JSON and Pydantic: encoders and decoders are functions; field patterns, maximum lengths and unknown-field rules are only kept where a proof needs them.
- Replay engine internals: the row order it delivers is assumed to be the stable order by local time, and its exchange-time ordering and flag rewriting are not modelled.
- The actor and reason of ledger transition rows, the read-only ledger, and the admission guard built on `require_active`.
- Verification of a first admission's artifact files (`approval.py:85-236`), of which only the resulting identity is used.
- `replace_order` and single `cancel` calls to the venue: they appear as journal appends and as charges to the cancel budget.
- The second flag of the drain: a recovery drain can end on the first canceled order, so nothing absolute is stated about it.
- Feature fields copied from the inventory or the configuration, and the recorder, Tardis download, LLM observer, funding settlement of the paper engine, drift monitor and drills.
- The risk authority, the exchange simulator and the strategy kernels, which appear only as arbitrary inputs.
- Parse failures and payload digests inside data-quality issues.
- The remaining digests of a selection receipt and of a validation plan.
- Several paper runs in one database: the journal model holds one run.
- RawSegment.RawSegmentWriter.Finalize: says nothing about the stream after a failed finalization, because the source leaves a partial file for quarantine in that case, and leaves out the compressed size and the file digest.
- RawSegment.RawSegmentReader.Verify: leaves out the compressed size and the file digest, because compression and files are not modelled.
- AuditLog.ParseOperationalPayload: takes the bytes as read; the file type and permission checks made before reading are not modelled.
- MarketStructure.ConfluenceMirrors: takes the outcome of the near-level test as given, because a distance in basis points of the price is not preserved by a reflection; StructureReading states the test itself.
- FeatureEngine.IncrementalFeatureEngine.Update: leaves out the transcendental, statistical and inventory fields listed above.
- PaperJournal.Journal.RecordCycle: leaves out order and account rows, whose constraints can only add failures.
- PaperJournal.Journal.RecordEngineCycle: leaves out orders, decisions, features and account rows, whose constraints can only add failures.
- PaperRecovery.MarketCommitStep: speaks of the kept tables only, because the constraints of the others are part of the fault.
- PaperRecovery.MemoryMatchesJournal: assumes that a failed commit ends the process, because the statement is false otherwise; the exact condition and what holds without it are in PaperFailures.
- PaperFailures.JournalHoldsAnyway: assumes that a fill id always names the same fill, which the exchange simulator provides; the simulator is not part of this model.
- LedgerGuarantees.NeverRevived: assumes a clock that does not run backwards, because the statement is false otherwise.
