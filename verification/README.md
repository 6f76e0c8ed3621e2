# A verified model of the meet server

This project models the core of a meet server for athletics competitions and proves properties of
it with Dafny 4.11. `dafny verify dfyconfig.toml` checks everything.

The server has three hard parts, and the model follows them.

**Offline capture.** Field officials capture trials on devices that may be offline and later send
their queue, possibly many times. The server keeps locks (checkouts with a generation, a token and
a start-list version), versioned trials, settled results, a ledger of decided ops and a queue for
the office. `CaptureServer.Server` is the server: its fields are the tables, its methods follow the
operations of `internal/app` and `internal/store` step by step. Each method leaves the tables and
the answer that a function from tables to tables prescribes (`Checkouts`, `Capture`, `Replay`,
`Results`), and each request leads from its tables only to tables that follow them in the protocol
(`Protocol.Follows`). One committed transaction is one atomic step; where a request is several
transactions (a capture and its ledger write, a queue decision, a decision on a timing row, bulk
DNS) each gap between them is a step of its own, so a crash in between is a state like any other.
`Protocol` collects twenty kinds of step. `CrashResend`, `ResendChecks`, `AtMostOnce`, `Staleness`,
`Handover`, `Invariants`, `BarResults`, `NothingLost`, `ForceApply`, `Rejections`, `Reports`,
`ResultVersions`, `AnnouncedResults`, `Corrections`, `RecordedRows`, `TimingRows`, `TimingQueue`,
`StoppedRequests`, `LiveTable` and `CorrectedTable` prove what holds of every step, run and reachable state, and `ServerHistory`
says what that means for a server object between any two of its moments.

**Seeding, ranking and advancement.** `FieldSeries`, `FieldRanking`, `Vertical`, `HeatSeeding`,
`Progression`, `Combined`, `Scoring`, `Marks` and `MarkReading` are the sort-and-loop programs of
`internal/domain`, each proved against a definition by counting that does not mention order, with
lemmas saying what that definition means (rules 20, 25, 26 and 39 of the World Athletics Technical
Rules).

**Interchange.** `Csv` and `FinishLynx` print and parse the timing system's files, `CsvImport`
imports entries (`CsvRows` says what a row asks for and stores, `CsvRepeats` and `CsvPreview` what a
second commit and a preview do), `Omx` and
its companions import and export a whole meet.

`Basics`, `Sorting` and `Text` hold sequences, sorting and strings; `Tables` and `Vocabulary` hold
the entities. Rows of the table below that name a method say what its loops compute; for the
straight-line requests of the server the rows name the theorems about the functions their contracts
mention.

## What the proofs found

Where code and documentation disagree, the model follows the code.

- A resend after a crash is recognised by comparing the op's raw mark with the stored, normalised
  one (`internal/app/sync.go:373-385`). `7.1` stored as `7.10` is therefore ledgered as diverged
  and sent to the office, although it was applied (`CrashResend.LooseMarkDiverges`,
  `CrashResend.OneDecimalIsLoose`): `CrashResend.CrashResendExactly` makes canonical marks the exact
  condition.
- A capture that expects a version of a trial that was never stored is answered "not found", and
  replay ledgers that as an unknown athlete even when the athlete is registered
  (`internal/store/attempt.go:36-43`, `internal/app/sync.go:357-368`;
  `Rejections.RegisteredAthleteReportedUnknown`). `Rejections.DecidedExactly` gives the exact
  condition for each entry of the ledger.
- A capture also fails when its mark cannot be scored (`internal/app/capture.go:1091-1117`). Replay
  does not know that error: the op gets no ledger entry and the batch stops there, so a trial of an
  athlete for whom the meet's table has no column keeps everything queued behind it undecided
  (`Rejections.UnratedBlocks`).
- Changing a bar progression is documented as always safe, because heights may only be appended
  (`internal/app/verticaljump.go:60-66`). That is looked at only when a version is expected: a
  first-time form sent a second time replaces the list, and a settled result then names a height the
  trials do not (`BarResults.HeightsReplaced`). `BarResults.ReachableBestExactly` has the exact
  condition, `BarResults.GuardedRun` says that the guarded form meets it.
- Resolving a queued timing row is documented as one-shot (`internal/app/exchange.go:745-749`), but
  the result is written before the row's status is looked at: a second replace or merge still
  writes, then reports an error (`TimingQueue.ReplacedTwice`). `TimingQueue.SecondResolution` says
  exactly when.
- A correction does not ask for the unit to have been announced; it announces it, and closes it to
  capture (`Corrections.CorrectionAnnounces`, `Corrections.CorrectionExactly`).
- Identical points are documented as an official tie (`internal/domain/combined.go:77-79`). The
  majority of disciplines is looked at first, so two rows with the same points can still be
  separated (`Combined.TieExactly`). The majority comparison is not transitive, and the winner can
  depend on the order rows are supplied in (`Combined.MajorityDependsOnInputOrder`): it does exactly
  when three rows beat each other in a circle (`CombinedOrder.OrderMattersExactly`).
- A scoring column is monotone in the mark only if its last row gives no negative points or is the
  worst possible mark; validation asks for neither (`Scoring.MonotoneExactly`,
  `Scoring.NegativeLastRow`).
- A start list printed with a competitor without an ID reads back with that competitor's fields
  moved up by one, because a leading comma after the indent is dropped
  (`internal/exchange/finishlynx.go:210`; `FinishLynx.BlankIdMovesUp`, `FinishLynx.EvtInverseExactly`).
- Committing a CSV file twice is documented as safe without condition (`internal/app/import.go:98-105`).
  `CsvRepeats.SecondCommitExactly` says when it is: unless a row's licence went to another athlete
  who is not registered and entered in that row's event. `CsvImport.SharedLicenceIsNotIdempotent` is
  a file where it did. A single row is always safe (`CsvRepeats.RowTwiceChangesNothing`).
- The preview is documented as exact (`internal/app/import.go:88-91`), but a row that occurs twice is
  previewed as accepted both times (`CsvPreview.RepeatedRow`); `CsvPreview.PreviewExactly` has the
  exact condition.
- Validation of a meet document is documented to leave nothing to be dropped silently
  (`internal/exchange/omx.go:247-252`). External identifiers of the meet, announcement numbers and
  para classes are never stored; clubs of athletes and legs of teams, which it does not check, are
  dropped on import; dates are cut to the day, a birth year follows a birth date, a zero schedule
  is none; and blank statuses, sources and positionings come back filled in.
  `OmxMeaning.ComesBack` says what comes back of any document, field by field,
  `OmxRoundTrip.ComesBackWholeExactly` has the exact condition for nothing to be lost,
  `OmxRoundTrip.ExternalIdsAreLost` a valid document that loses something.

## Model

| member | source | states |
|---|---|---|
| `CrashResend.CrashResendExactly` | internal/app/sync.go:230-348 | for every state, device stamp and batch: every schedule of stops (before any op, or between an op's capture transaction and its ledger write), each followed by a full resend, leaves all tables as one undisturbed replay does, if and only if every op that the undisturbed replay writes carries a canonical mark |
| `CrashResend.CrashResend` | internal/app/sync.go:230-248 | a batch whose marks are all canonical survives every schedule of stops: trials with versions, settled results, ledger and queue end up identical |
| `ResendChecks.ConvergesExactly` | internal/app/sync.go:230-348 | for a batch whose ops have ids and trials of their own, can be rated and were decided for no other unit, the same can be told without running a replay: every schedule of stops and a full resend converges if and only if each op that is undecided, under a live stamp, in order and up to date in the tables as they are carries a canonical mark |
| `CrashResend.UnsafeStop` | internal/app/sync.go:373-385 | where a written mark is not canonical, one particular stop makes the resend end with a different ledger: the raw mark of the op is compared with the normalised stored one |
| `CrashResend.LooseMarkDiverges` | internal/app/sync.go:373-385 | a first trial with any readable mark that is not canonical, under a live lock: after one stop and a resend the ledger says diverged and the queue holds an item, where an undisturbed replay says applied, although the stored trial is the same |
| `CrashResend.OneDecimalIsLoose` | internal/app/sync.go:373-385 | 7.1 is such a mark; its canonical spelling is 7.10 |
| `AtMostOnce.OpLandsAtMostOnce` | internal/app/sync.go:253-348 | over every run from every state, mixing resends, crashes, overrides, direct captures and queue decisions, replay writes the trial of one capture at most once, however often its id is resent |
| `AtMostOnce.VersionConsumedOnce` | internal/store/attempt.go:32-64 | over every run, each expected version of a trial cell is used for a write at most once, by whichever path |
| `AtMostOnce.TrialsEvolve` | internal/store/attempt.go:32-64 | no step deletes a trial or lowers its version, and a row changes only together with its version |
| `AtMostOnce.DecidedNeverLands` | internal/app/sync.go:253-268 | once an op id is in the ledger, no later replay under that id writes a trial, even with other contents, and the id stays in the ledger |
| `AtMostOnce.LedgerKept` | internal/store/checkout.go:168-175 | no step removes or rewrites a ledger entry |
| `Staleness.StalenessIsPermanent` | internal/domain/sync.go:56-64 | a stamp issued in one state that no longer applies after some run applies after no continuation of it, and replaying any op under it then writes no trial |
| `Staleness.StepMovesLocks` | internal/store/checkout.go:78-123 | locks never disappear, generation and start-list version rise by at most one and never fall; holder, device, token and re-activation change only with the generation, and each new generation has a token never issued before |
| `Staleness.TokenNamesGeneration` | internal/app/sync.go:53-167 | over every run, the generation of a unit's lock is unchanged exactly when its token is; while it stands, holder and device stand |
| `Checkouts.ApplicableMeansCurrent` | internal/domain/sync.go:50-64 | an op is applicable if and only if the unit is locked, the lock is active, and the op's token, generation and start-list version are exactly the lock's |
| `Handover.EnsureMeaning` | internal/app/sync.go:34-47 | opening a unit creates a lock only if there is none, and leaves one that stands as it is, whoever holds it |
| `Handover.TakeMeaning` | internal/app/sync.go:53-75 | taking the lock succeeds exactly when no one else holds it; from then on exactly the new stamp applies, on the holder's own device nothing changes, and otherwise every stamp issued before is revoked: it applies after no continuation |
| `Handover.OverrideMeaning` | internal/app/sync.go:81-115 | the override succeeds exactly on an existing lock, makes its account and device the holder under a token never issued, and revokes every stamp issued before; other units decide as before |
| `Handover.ReviseMeaning` | internal/app/sync.go:120-152 | a new start list keeps holder and token, sends what was captured against the old list to the office as a start-list change, and revokes every stamp issued before |
| `Handover.ReleaseMeaning` | internal/app/sync.go:155-167 | after a release no stamp applies, and none issued before ever does again |
| `Rejections.DecidedExactly` | internal/app/sync.go:320-368 | for an undecided op under an applicable stamp, one checkable condition per ledger entry (unknown athlete, invalid mark, announced, applied, diverged), and the one under which it gets none: in order and up to date, but its series has a mark the meet cannot score or hold against records |
| `Rejections.RegisteredAthleteReportedUnknown` | internal/store/attempt.go:36-43 | a run from the empty store in which a registered athlete is ledgered as unknown |
| `Rejections.UnratedBlocks` | internal/app/capture.go:1091-1117 | a valid trial that would land, of an athlete whose marks the meet cannot rate on this unit, stops its batch with nothing changed, whatever is queued behind it |
| `Invariants.StepKeepsInvariant` | internal/app/capture.go:717-754 | each of the twenty kinds of step keeps: stored trials are canonical and belong to their unit, settled results of unannounced horizontal units agree with the stored trials, queued timing rows name only track units |
| `Invariants.RunKeepsInvariant` | internal/app/capture.go:717-754 | so does every run |
| `Invariants.WriteSettles` | internal/app/capture.go:717-754 | after a capture the athlete's settled row says what the athlete's stored trials say, and everyone else's agreement is undisturbed |
| `Invariants.SettledSays` | internal/app/capture.go:717-754 | a settled row that agrees with the trials is the operator's, shows the longest mark measured in canonical spelling, and the status retired if any trial says so, otherwise no mark if none was measured |
| `BarResults.ReachableBars` | internal/app/verticaljump.go:131-230 | in every reachable state, however progressions were changed, an athlete of an unannounced vertical unit has a result exactly when a bar trial is stored, and its status is that of the stored trials |
| `BarResults.ReachableBestExactly` | internal/app/verticaljump.go:60-101 | over every run, each result shows throughout the best height the stored trials cleared, as the progression has it, if and only if each successful change of a progression in the run leaves everyone's best height where and what it was |
| `BarResults.StepKeepsBestExactly` | internal/app/verticaljump.go:66-101 | the same for one step of any kind from a state where results and trials agree |
| `BarResults.GuardedRun` | internal/app/verticaljump.go:79-89 | so it is in every run in which a later list is sent with the version it extends |
| `BarResults.HeightsReplaced` | internal/store/verticaljump.go:57-102 | a run from the empty store in which it is not: 1.60 cleared and settled, then the list replaced by 1.70 without a version |
| `BarResults.BarSettles` | internal/app/verticaljump.go:131-230 | a successful bar capture settles its athlete's status and best height from the stored trials and disturbs no one else |
| `BarResults.StoredIsListed` | internal/store/verticaljump.go:179-192 | the trials listed are exactly those stored, height by height, then trial by trial |
| `BarResults.ShownSays` | internal/domain/vertical.go:148-156 | the status shown is retired if any stored trial says so, otherwise no mark if nothing was cleared |
| `ResultVersions.StepEvolves` | internal/store/result.go:56-81 | no step deletes a settled result, and one that changes gets a higher version |
| `ResultVersions.LostUpdateRefused` | internal/store/result.go:97-143 | of two track captures made from the same version of a result, once one has been saved the other is refused and changes nothing, whatever run lies between |
| `RecordedRows.TrackExactly` | internal/app/capture.go:807-916 | track capture succeeds exactly on an unannounced track unit, for a registered athlete, over the expected version if one is given, with a valid status or a time that can be recorded and rated; then the result holds it as the operator's, and otherwise nothing changed |
| `RecordedRows.TimedExactly` | internal/app/exchange.go:681-690 | hand times are rounded up to the next tenth, electronic ones keep their hundredths, a time without a method is refused |
| `LiveTable.ReachableLiveTable` | internal/app/capture.go:537-594 | in every reachable state the live table of an unannounced horizontal unit is the official ranking of the raw stored trials, and every settled row agrees with them |
| `LiveTable.LiveTableIsRawRanking` | internal/app/capture.go:537-594 | wherever the invariant holds, reconciling settled results with trials changes no line of the table |
| `LiveTable.CutExactly` | internal/app/capture.go:537-594 | the cut round is over exactly when everyone on the roster has so many trials stored |
| `CorrectedTable.CorrectionDecidesLine` | internal/app/capture.go:537-594 | after every successful correction of a horizontal unit the athlete's line of the table shows it: the corrected mark with rank 1 plus the athletes strictly better than that mark alone (its series' countback where it was the best already), or no rank, no mark and the corrected status, also where the trials had given that status |
| `CorrectedTable.LineByLine` | internal/app/capture.go:537-594 | the reconciled table is a permutation of one line per entry, each given by the athlete's own trials and settled row alone and placed among the bases of all |
| `CorrectedTable.PostedTableStands` | internal/app/protest.go:74-83 | over every run, as long as an announced unit is not posted again, its whole table stands |
| `NothingLost.LedgerAccounted` | internal/app/sync.go:320-423 | every ledger entry of a reachable state was made by one replay step of the run: applied with the canonical value stored at that moment, rejected for the reason the save gave, or reconciled, for the reason lock and start list give, with a new pending item that holds athlete, trial, kind, mark and wind of the op, its sender and stamp; the entry and the item's identity and payload have not been rewritten since |
| `NothingLost.OneItemPerReconciledOp` | internal/app/sync.go:390-423 | in every reachable state a reconciled op has exactly one queue item, any other op none |
| `NothingLost.ItemLeavesPendingByDecision` | internal/store/checkout.go:226-241 | an item that stopped being pending was closed by an explicit apply or discard of that item in the run, and its status is that choice |
| `NothingLost.AppliedWasStored` | internal/app/sync.go:320-348 | for an op ledgered as applied there is a moment of the run at which the stored trial held its canonical value |
| `NothingLost.ResolveChangesOne` | internal/app/sync.go:508-552 | a queue decision leaves the ledger alone and changes at most the one pending item it names, to the choice made |
| `NothingLost.ReplayAccounted` | internal/app/sync.go:253-348 | replaying an undecided op either accounts for it in ledger, trials and queue, or fails and changes nothing |
| `ForceApply.ApplyAlwaysLands` | internal/app/sync.go:508-552 | in every reachable state, applying a pending item succeeds exactly when its unit still takes such a trial and can rate the series, no version ever being in the way; then the trial holds the payload in canonical spelling under the next version, the result is settled and the item closed, and otherwise nothing changed |
| `ForceApply.QueuedOpLands` | internal/app/sync.go:390-423 | from the device to the trial: every reconciled op of a reachable state was sent by one replay of the run, its queue item still holds what was captured, and when the office applies that item, the op's own trial holds its capture in canonical spelling |
| `Reports.FirstReport` | internal/app/sync.go:320-348 | the report of a newly decided op agrees with the ledger, shows the stored version beside an applied op, and says applied exactly when this replay wrote the trial |
| `Reports.ResentReport` | internal/app/sync.go:253-268 | a decided op sent again changes nothing and is answered from the ledger: as a duplicate with the stored version if it was applied, with its reason otherwise, and with an error if it was decided for another unit |
| `Reports.BatchReports` | internal/app/sync.go:230-251 | a batch that is not cut short is answered op by op, in the order sent |
| `AnnouncedResults.StepFreezes` | internal/app/protest.go:74-83 | a step leaves an announced unit's results and announcements alone, or posts the same list again, or is a correction with a reason (and an escalation once the protest window has elapsed) that changes one athlete and posts the list again in the same step |
| `AnnouncedResults.FrozenBetweenAnnouncements` | internal/app/protest.go:201-342 | over every run, as long as an announced unit was not posted again, its results are those that were posted |
| `AnnouncedResults.AnnouncementsGrow` | internal/app/protest.go:88-118 | an announced unit stays announced, and its list of announcements is only ever extended |
| `TimingRows.RowGoesWhereItSays` | internal/app/exchange.go:470-520 | each row of a timing file is skipped as blank; or written to the unit its event, round and heat numbers name and the athlete its bib names, and nowhere else, if nothing stands against it; or queued once with unit and athlete where known and the one reason that stands against it (unit, bib, status, announcement, manual result, each a checkable condition); an error changes nothing |
| `TimingRows.OneReason` | internal/app/exchange.go:470-520 | at most one reason stands against a row, and none against a row that is written |
| `TimingRows.FileGoesWhereItSays` | internal/app/exchange.go:426-527 | a successful import takes the rows one after the other, each to that fate |
| `TimingRows.OnlyNamedResults` | internal/app/exchange.go:426-527 | however it ends, an import leaves every result no row names as it was |
| `AnnouncedResults.ImportConserves` | internal/app/exchange.go:426-527 | a successful import writes or queues every non-blank row, the counts add up to them, and no non-blank manual result is altered, even by an import that fails midway |
| `TimingQueue.SecondResolution` | internal/app/exchange.go:745-840 | resolving an already resolved row always answers with an error, yet writes a result if and only if the action is replace or merge and the row is writable: unit known, athlete chosen and stored, status given where asked for, and the row, or the correction it has become, acceptable and scorable |
| `TimingQueue.FirstResolution` | internal/app/exchange.go:745-840 | the first decision takes effect exactly when it writes nothing or its row is writable, closes the row to what was chosen, and otherwise changes nothing |
| `TimingQueue.WritableExactly` | internal/app/exchange.go:607-676 | the write of a decision succeeds exactly when the row is writable, by conditions on the request, the tables, the stored athletes and the points table |
| `TimingQueue.ReplacedTwice` | internal/app/exchange.go:745-749 | from the empty store: a row replaced with DNS and again with DNF; the second answer is an error, and DNF stands |
| `TimingQueue.StrangerRefused` | internal/store/migrations/0004_athletes_results.sql:53-56 | from the empty store: a row queued for its unknown bib, replaced for an athlete who is not stored, is refused and stays open |
| `RecordedRows.DecisionStores` | internal/app/exchange.go:590-840 | a replacement or merge that takes effect leaves the athlete meant the file's mark and status, or the status chosen for one without an equivalent; a merge keeps what the athlete has, a mark with its timing and a status with its detail, and fills blanks only; as the import's before the announcement, as a correction after it |
| `StoppedRequests.ReplaceResumes` | internal/app/exchange.go:818-840 | a replacement that stopped after its write and is sent again takes effect exactly unless the protest window of the first write has run out without an escalation, closes the row as without the stop, and leaves the same result under the next version |
| `StoppedRequests.BulkResumes` | internal/app/capture.go:1008-1071 | bulk DNS stopped after any number of entries and sent again leaves the tables one undisturbed request leaves |
| `StoppedRequests.BulkMeaning` | internal/app/capture.go:952-976 | bulk DNS gives a first DNS to exactly the athletes of the roster without a result, and changes nothing else |
| `Corrections.CorrectionExactly` | internal/app/protest.go:201-342 | a correction succeeds exactly with a reason, a known unit with results, a registered athlete, an escalation once the protest window has run out, and a valid status, or a readable mark that can be scored and held against records as stored; it changes nothing otherwise, and leaves the unit announced and closed to capture over every later run |
| `RecordedRows.CorrectionStores` | internal/app/protest.go:201-342 | a successful correction stores the status alone, or on the track the time as its method records it, in the field the mark in canonical spelling, for that athlete and no other, and posts the list once more |
| `Corrections.ProtestClock` | internal/domain/protest.go:31-43 | the protest clock runs for half an hour from the latest announcement; what is left of it and whether the result is official agree |
| `Corrections.AnnouncedIsClosed` | internal/app/protest.go:74-83 | over every run, no trial and no bar of an announced unit appears, goes or changes |
| `Corrections.CorrectionAnnounces` | internal/app/protest.go:201-342 | one correction of a unit nobody announced announces it, and the trial that would have been taken is refused |
| `ServerHistory.WhatFollows` | internal/app/sync.go:253-552 | between any two moments of a server: trials, results, ledger entries and queue items are still there, each as it was or moved on to a higher version or out of pending; announced units stay closed and their tables stand until posted again; revoked stamps stay revoked |
| `ServerHistory.ServerIsConsistent` | internal/app/capture.go:537-594 | at every moment of a server that started empty: settled results of horizontal units agree with trials, presence and status of vertical results with bars, live tables are raw rankings, the queue matches the ledger, versions are positive and tokens issued |
| `CaptureServer.Server.ListAttempts` | internal/store/attempt.go:104-121 | the athlete's stored trials in trial order |
| `CaptureServer.Server.ReplayCaptureBatch` | internal/app/sync.go:230-251 | the loop decides the ops in order, one outcome each, stopping at the first error |
| `CaptureServer.Server.MarkDNS` | internal/app/capture.go:1028-1041 | the loop gives DNS to every listed entry that still has no result, and counts them |
| `CaptureServer.Server.UnresultedEntries` | internal/app/capture.go:952-976 | exactly the entries without a result, in roster order |
| `CaptureServer.Server.ListBars` | internal/store/verticaljump.go:179-196 | an athlete's stored bar trials in height-then-trial order |
| `CaptureServer.Server.ImportTimingFile` | internal/app/exchange.go:426-527 | the loop takes the rows in order, counting the written and the queued, and stops at the first error |
| `Marks.ParseCentiMark` | internal/domain/scoring.go:213-238 | the digit loop computes the centimetre or hundredth value, or the error, of the specification CentiMark |
| `Marks.ParsePrintExactly` | internal/domain/attempt.go:252-259 | reading the two-decimal print of a number gives it back if and only if it is at most 2^40 |
| `Marks.ParsePrint` | internal/domain/attempt.go:252-259 | the round trip on the whole range |
| `Marks.CanonicalIsNormalForm` | internal/domain/attempt.go:252-259 | the canonical spelling keeps the value, is its own canonical spelling, and two canonical spellings are equal exactly when the values are |
| `Marks.HandTimeIsLeastTenth` | internal/domain/track.go:16-26 | the recorded hand time reads as the least tenth not below the reading (or is out of range), and recording it again changes nothing exactly when that tenth is within range |
| `Marks.ElectronicTimeKeepsValue` | internal/domain/track.go:31-40 | an accepted electronic time keeps its value, and its spelling is a fixed point |
| `MarkReading.ReadsExactly` | internal/domain/scoring.go:209-238 | a text reads as v hundredths exactly when, blanks at its ends aside, it is a whole number, or digits, a point or a comma and one or two decimals, worth v, and v is within range |
| `MarkReading.HandExactly` | internal/domain/track.go:16-29 | a reading above zero is recorded as the least full tenth not below it, with one decimal |
| `FieldSeries.ValidatedIsNormalForm` | internal/domain/attempt.go:46-71 | what capture stores passes again unchanged, has the value of what was sent, and equals it exactly when the sent mark was canonical |
| `FieldSeries.ValidatedExactly` | internal/domain/attempt.go:46-72 | a trial is taken exactly with a number from one, a known kind, a readable mark above zero if valid and none otherwise, and wind only where it counts |
| `FieldSeries.SeriesOrderIndependent` | internal/domain/attempt.go:107-141 | marks, best and status do not depend on the order of the trials |
| `FieldSeries.BestIsMaximum` | internal/domain/attempt.go:122-128 | the best mark is the greatest valid mark, in canonical spelling; none exactly when no trial is valid |
| `FieldSeries.CompareMarks` | internal/domain/attempt.go:195-209 | zero exactly for equal series; otherwise the difference at the first place where the zero-padded series differ |
| `FieldSeries.CompareAntisymmetric` | internal/domain/attempt.go:195-209 | comparing from the other side negates |
| `FieldSeries.CompareTransitive` | internal/domain/attempt.go:195-209 | next-best comparison is transitive |
| `FieldRanking.RankFieldSeries` | internal/domain/attempt.go:157-189 | the sort and rank loops produce the official table |
| `FieldRanking.TableMeaning` | internal/domain/attempt.go:157-189 | one line per series with its own best and status; rank is 1 plus the number of series strictly better, and 0 exactly without a valid mark |
| `FieldRanking.NextBestWrittenOut` | internal/domain/attempt.go:157-212 | written out over the trials: rank is 1 plus the number of series that, at the first place where the marks measured differ, longest first, have the longer mark or the only one; best mark and status of the trials stand beside it |
| `FieldRanking.TableOrdered` | internal/domain/attempt.go:157-190 | ranked lines come first, by rank, those without a mark last, and equal ranks stand by athlete |
| `FieldRanking.TableOrderIndependent` | internal/domain/attempt.go:157-189 | the table does not depend on the order athletes are listed in |
| `FieldRanking.FieldContinuation` | internal/domain/attempt.go:218-240 | exactly the non-retired athletes with a valid mark and fewer than topN strictly better, each once, nobody before an athlete they beat |
| `FieldRanking.KeptMeansContinues` | internal/domain/attempt.go:218-240 | the line-by-line filter of the ranked table means the same as the definition on series |
| `Vertical.Eliminated` | internal/domain/vertical.go:82-100 | true exactly when, in height-then-trial order and before any retirement, three failures occur with no clearance between them |
| `Vertical.BestHeightIdx` | internal/domain/vertical.go:104-115 | the greatest cleared height, -1 without one |
| `Vertical.RankVertical` | internal/domain/vertical.go:185-226 | the sort, rank and flag loops produce a table of one line per series, each as written out below, best first |
| `Vertical.TableMeaning` | internal/domain/vertical.go:185-226 | rank is 1 plus the number strictly better on height, attempts at it, and failures in all; tie for first marks exactly the rank-1 rows when at least two share it |
| `Vertical.CountbackWrittenOut` | internal/domain/vertical.go:231-252 | written out over the trials: rank is 0 without a clearance, otherwise 1 plus the number of series with a greater height cleared, or the same and fewer attempts there, or both the same and fewer failures in all; best height, attempts, failures, elimination and the tie for first stand beside it |
| `Vertical.TableOrdered` | internal/domain/vertical.go:185-226 | ranked lines come first, by rank, those without a clearance last, and equal ranks stand by athlete |
| `Vertical.TableOrderIndependent` | internal/domain/vertical.go:185-226 | the table does not depend on the order athletes are listed in |
| `Vertical.StorageOrderIrrelevant` | internal/domain/vertical.go:54-64 | distinct trials stored in another order give the same row |
| `HeatSeeding.RankingMeaning` | internal/domain/heatseeding.go:28-54 | a permutation of the field: readable times first, never falling down the ranking, then those without in the order they were given in |
| `HeatSeeding.EqualTimesKeepOrder` | internal/domain/heatseeding.go:28-54 | candidates with the same time keep the order they were given in |
| `HeatSeeding.LeastSufficientCount` | internal/domain/heatseeding.go:59-67 | the chosen number of heats is the least one that holds everyone |
| `HeatSeeding.SeedHeats` | internal/domain/heatseeding.go:78-108 | an error without heats; otherwise each heat holds the candidates assigned to it in rank order, and without club separation exactly ranks k, 2h-1-k, 2h+k, 4h-1-k and so on |
| `HeatSeeding.TopOpensTheHeats` | internal/domain/heatseeding.go:85-90 | dealt without exchanges, rank i of the first h is in heat i |
| `HeatSeeding.BlocksMirror` | internal/domain/heatseeding.go:85-90 | dealt without exchanges, every later block of h ranks goes back through the heats, mirroring the one before; neighbours across a block boundary share a heat |
| `HeatSeeding.HeatInRankOrder` | internal/domain/heatseeding.go:78-108 | exchanged or not, a heat lists exactly the ranks assigned to it, in rank order |
| `HeatSeeding.SeparateClubs` | internal/domain/heatseeding.go:110-131 | the in-place loop is the fold of the exchange decision over the ranks |
| `HeatSeeding.ConsiderExchange` | internal/domain/heatseeding.go:111-128 | decides one exchange |
| `HeatSeeding.WouldCollide` | internal/domain/heatseeding.go:136-150 | true exactly when the candidate has a club and another member of it is in the heat |
| `HeatSeeding.AssignmentProperties` | internal/domain/heatseeding.go:78-131 | before and after separation every block of heatCount consecutive ranks occupies distinct heats, and the assignment is a permutation of the serpentine |
| `HeatSeeding.TopSeedsNeverMeet` | internal/domain/heatseeding.go:78-131 | any two of the top heatCount seeds are in different heats |
| `HeatSeeding.BalancedHeats` | internal/domain/heatseeding.go:78-131 | every heat takes n/h or, if it does not divide, one more, and club separation changes no heat's size |
| `HeatSeeding.NoHeatExceedsCap` | internal/domain/heatseeding.go:59-100 | with the chosen number of heats no heat exceeds the cap |
| `HeatSeeding.EveryoneIsSeededOnce` | internal/domain/heatseeding.go:78-100 | over all heats every candidate occurs exactly as often as in the field |
| `HeatSeeding.ExchangesWhenHarmless` | internal/domain/heatseeding.go:110-150 | at a clash whose partner, the candidate two ranks below, exists and is in another heat, the exchange is made if and only if swapping creates no pair of clubmates in a heat that was not there before |
| `HeatSeeding.EveryExchangeHelps` | internal/domain/heatseeding.go:110-131 | the pairs of clubmates sharing a heat after an exchange are a proper subset of those before |
| `HeatSeeding.SeparationOnlyHelps` | internal/domain/heatseeding.go:110-131 | the separated seeding is plain serpentine or has a proper subset of its pairs of clubmates |
| `Progression.ComputeTrackAdvancement` | internal/domain/progression.go:53-134 | those through by place with Q; then with q those through by time, best first: each with a strictly lower time than everyone of the pool left out or tied; a tie shares one time strictly lower than that of everyone in neither group, and is announced with its entries and the slots left |
| `Progression.ComputeFieldAdvancement` | internal/domain/progression.go:150-231 | those on standard with Q; then with q the best of the rest, by strictly greater marks where higher is better and strictly lower ones otherwise, and the tie for the last places in the same terms |
| `Progression.TimePoolMeaning` | internal/domain/progression.go:84-98 | the time pool holds exactly those with a readable time and no status who are through by place in no heat |
| `Progression.FieldPoolMeaning` | internal/domain/progression.go:156-196 | on standard is exactly every measured entry whose mark equals or beats a readable standard; the rest compete, except entries on standard |
| `Progression.FillByMark` | internal/domain/progression.go:98-133 | the secured, level and remaining loop over a sorted pool gives exactly the entries Through and the tie TieAt, which are defined by counting |
| `Progression.PlacesConserved` | internal/domain/progression.go:98-133 | places given plus the slots a tie leaves are min(k, pool); a surfaced tie has at least one slot and more members than slots |
| `Progression.PoolOrderIrrelevant` | internal/domain/progression.go:90-133 | who goes through and who is tied does not depend on the order of the pool |
| `Progression.NobodyPassedOver` | internal/domain/progression.go:98-133 | everyone left out, tied or not, is strictly worse than everyone through, and everyone in neither group strictly worse than the tied |
| `Progression.PlacesPerHeat` | internal/domain/progression.go:57-74 | each heat sends min(n, finishers) through by place, none behind a finisher left out |
| `Progression.NobodyAdvancesTwice` | internal/domain/progression.go:53-134 | no entry is both Q and q, and none advances more often than it was entered |
| `Progression.NobodyAdvancesTwiceInField` | internal/domain/progression.go:150-231 | the same for standards and performances of a field event |
| `Progression.CollectPool` | internal/domain/progression.go:75-90 | the timed finishers of all heats who are not qualified by place |
| `Progression.TakeTop` | internal/domain/progression.go:57-74 | the first n finishers of a heat |
| `Progression.TakeStandards` | internal/domain/progression.go:165-190 | exactly the measured entries on the standard |
| `Progression.DropQualified` | internal/domain/progression.go:185-195 | the rest of the pool, in order |
| `Combined.RankCombinedWithTieBreak` | internal/domain/combined.go:100-130 | the partition, sort and rank loops produce the provisional table |
| `Combined.FinalRankCombined` | internal/domain/combined.go:149-163 | the final table |
| `Combined.CombinedTotal` | internal/domain/combined.go:168-178 | the sum of the points and whether every discipline is scored |
| `Combined.TotalIsSum` | internal/domain/combined.go:168-185 | the total is the sum of the points, a missing result counting nothing |
| `Combined.CompareCombined` | internal/domain/combined.go:202-235 | totals, then the majority of disciplines, then the sorted points from the top |
| `Combined.ProvisionalConservesRows` | internal/domain/combined.go:100-130 | every row occurs exactly once, its athlete and performances untouched |
| `Combined.FinalConservesRows` | internal/domain/combined.go:149-163 | so in the final table |
| `Combined.FinalIsProvisionalWhenComplete` | internal/domain/combined.go:149-163 | with every row complete and in competition both tables are equal |
| `Combined.UnrankedByAthlete` | internal/domain/combined.go:128-161 | the order given to rows without a rank is by athlete |
| `Combined.FinalRanksOnlyTheComplete` | internal/domain/combined.go:149-163 | a row of the final table has a positive rank if and only if it is complete and in competition |
| `Combined.TiesStandMeaning` | internal/domain/combined.go:100-130 | under ties-stand each in-competition row ranks 1 plus the number of in-competition rows with a larger total |
| `Combined.ComparisonAntisymmetric` | internal/domain/combined.go:202-235 | rows with equally many disciplines compare the same from both sides |
| `Combined.MajorityRule` | internal/domain/combined.go:202-235 | a row is ahead of another over as many disciplines on a larger total; on the same total with more points in more than half of the disciplines; and if neither has that, with the higher points where the two lists, highest first, first differ |
| `Combined.TotalsFall` | internal/domain/combined.go:100-130 | where ties stand, totals never rise down the ranking, and equal totals stand by athlete |
| `Combined.TieExactly` | internal/domain/combined.go:202-235 | two rows tie if and only if their points are the same multiset and neither is ahead in the majority of disciplines |
| `Combined.MajorityNeighbours` | internal/domain/combined.go:100-130 | neighbours of the majority ranking are in comparison order and share a rank exactly when they tie |
| `Combined.PoliciesAgreeOnDistinctTotals` | internal/domain/combined.go:100-130 | with different totals both policies give the same table |
| `Combined.MajorityCycle` | internal/domain/combined.go:202-235 | three rows with equal totals, each ahead of the next all the way round |
| `Combined.MajorityDependsOnInputOrder` | internal/domain/combined.go:100-130 | so the ranked table of the same three rows in another order has another winner |
| `CombinedOrder.OrderMattersExactly` | internal/domain/combined.go:100-130 | with one row per athlete, the majority table is the same for every order the rows are supplied in if and only if no three of them are listed each before the next all the way round |
| `Scoring.ScoringTable.Validate` | internal/domain/scoring.go:117-172 | accepts exactly the tables with an identity and version, known rounding, and valid columns under distinct keys; an accepted table's index is complete and correct |
| `Scoring.CompileColumn` | internal/domain/scoring.go:128-168 | accepts a column if and only if its key is new, its direction known, its marks readable and strictly falling in points and mark |
| `Scoring.Award` | internal/domain/scoring.go:195-206 | binary search finds the first row reached |
| `Scoring.ScoringTable.Points` | internal/domain/scoring.go:186-207 | succeeds exactly for a known column and a readable mark, with that column's points |
| `Scoring.ScoreIsBestRow` | internal/domain/scoring.go:195-206 | the points are the most of any row equalled or beaten, and 0 when none is |
| `Scoring.MonotoneExactly` | internal/domain/scoring.go:195-206 | a better mark never scores less if and only if the last row's points are not negative or the last row already is the worst possible mark |
| `Scoring.NegativeLastRow` | internal/domain/scoring.go:117-172 | an accepted column in which the better mark scores less |
| `Scoring.ValidatedColumn` | internal/domain/scoring.go:117-172 | every accepted column meets the hypotheses of the two lemmas above |
| `Csv.ReadEncoded` | internal/exchange/finishlynx.go:406-424 | a record of at least one field without line breaks, printed with quoting, reads back as it was |
| `Csv.QuotedExactly` | internal/exchange/finishlynx.go:406-413 | a field is printed as it is, unless a comma, a quote, a blank at its start or a lone end marker asks for quotes, and then in quotes with every quote doubled |
| `Csv.LinesOfWritten` | internal/exchange/finishlynx.go:439-459 | splitting a printed file gives the lines printed |
| `Csv.AtoiItoa` | internal/exchange/finishlynx.go:119-136 | every 64-bit integer survives printing and reading |
| `FinishLynx.EncodeEVT` | internal/exchange/finishlynx.go:183-194 | prints the specified file |
| `FinishLynx.HeaderOrder` | internal/exchange/finishlynx.go:165-181 | as another program reads it, a header holds event, round and heat number, name, wind and the rest, in this order |
| `FinishLynx.ParseEVT` | internal/exchange/finishlynx.go:202-250 | reads header and indented lines into events, or refuses |
| `FinishLynx.EvtReadsBack` | internal/exchange/finishlynx.go:183-250 | what reading a printed start list yields, for all events without line breaks: places blank, comment-like competitors gone, competitors without an ID with their fields moved up |
| `FinishLynx.EvtInverseExactly` | internal/exchange/finishlynx.go:183-250 | reading is the inverse of printing if and only if every competitor has a blank place and an ID that starts no comment, or is blank altogether |
| `FinishLynx.BlankIdMovesUp` | internal/exchange/finishlynx.go:202-250 | a start list with one competitor without an ID reads back with the lane as ID and the first name as last name |
| `FinishLynx.EncodeLIF` | internal/exchange/finishlynx.go:337-345 | prints the specified file |
| `FinishLynx.ResultOrder` | internal/exchange/finishlynx.go:119-129 | a result line holds the place, then ID, lane, last name, first name, affiliation, time and the rest, in this order |
| `FinishLynx.ParseLIF` | internal/exchange/finishlynx.go:351-391 | reads one header and its rows, or refuses |
| `FinishLynx.LifReadsBack` | internal/exchange/finishlynx.go:337-391 | a printed result file reads back as the event with every competitor whose place starts no comment |
| `FinishLynx.LifInverseExactly` | internal/exchange/finishlynx.go:337-391 | the inverse if and only if no place starts a comment |
| `FinishLynx.EncodePPL` | internal/exchange/finishlynx.go:59-66 | prints the specified file |
| `FinishLynx.PersonOrder` | internal/exchange/finishlynx.go:59-66 | a person's line holds the ID or 0, last name, first name, affiliation, license and three blanks |
| `FinishLynx.ParsePPL` | internal/exchange/finishlynx.go:71-88 | reads people, 0 for a missing ID, or refuses |
| `FinishLynx.PplReadsBack` | internal/exchange/finishlynx.go:59-88 | what reading a printed people file yields |
| `FinishLynx.PplInverseExactly` | internal/exchange/finishlynx.go:59-88 | the inverse if and only if everyone has an ID that starts no comment |
| `CsvImport.Importer.CommitCSVImport` | internal/app/import.go:107-351 | the rows in order, with the counts of the report |
| `CsvRows.RowAsks` | internal/app/import.go:148-240 | an accepted row asks for what its cells say without the blanks around them: first and last name, birth year, sex M or W, licence, club, seed, and the first event of the code's discipline open to its category |
| `CsvRows.AskedIsRead` | internal/app/import.go:148-240 | and every row that asks for something is read as that |
| `CsvRows.RefusedFor` | internal/app/import.go:148-240 | a refused row is refused for the first thing wrong with it |
| `CsvRows.CommitStores` | internal/app/import.go:240-336 | committing a row stores the athlete meant (first holder of the licence, else first of the name, letter case aside, birth year and sex, who takes a licence over, else a new one with the row's data), the club, the registration and one entry with the seed and whether it misses the standard |
| `CsvImport.ResolveIsStable` | internal/app/import.go:441-483 | if every licence names one person, a resolved request finds the same athlete in every later table and changes nothing |
| `CsvImport.ImportIsIdempotent` | internal/app/import.go:98-105 | if every licence in store and file names one person, committing the file again leaves athletes, clubs, registrations and entries unchanged, accepts no row, reports each earlier accepted or updated row as updated, and rejects the same rows for the same reasons |
| `CsvImport.SharedLicenceIsNotIdempotent` | internal/app/import.go:98-105 | a licence on two names: the second import of the same file creates an entry |
| `CsvRepeats.SecondCommitExactly` | internal/app/import.go:98-105 | committing a file again leaves athletes, clubs, registrations and entries as they were if and only if no row's licence was given to another athlete who is not registered and entered in that row's event; then no row is accepted and the same rows are rejected for the same reasons |
| `CsvRepeats.RowTwiceChangesNothing` | internal/app/import.go:148-336 | committing any single row a second time leaves athletes, clubs, registrations and entries as they were |
| `CsvRepeats.FoundLater` | internal/app/import.go:441-483 | asked again of any later table, a request changes no athlete and finds the one it was resolved to if and only if its licence is blank, the athlete's, or nobody's |
| `CsvPreview.PreviewForetells` | internal/app/import.go:88-94 | a row is rejected in the preview exactly when any later commit rejects it, for the same reason; on the previewed tables the whole answer agrees |
| `CsvPreview.PreviewMissesRepeats` | internal/app/import.go:88-94 | a new row occurring twice is previewed as accepted twice and committed as accepted, then updated |
| `CsvPreview.PreviewExactly` | internal/app/import.go:88-94 | with named licences, the preview of a file is what its commit reports if and only if no two rows previewed as accepted enter the same athlete in the same event |
| `CsvPreview.RepeatedRow` | internal/app/import.go:88-94 | a concrete file whose preview and commit differ |
| `Omx.ValidateOMX` | internal/exchange/omx.go:253-362 | the pass over each kind of entity accepts exactly the valid documents |
| `Omx.Instance.ImportOMXDocument` | internal/app/omx.go:251-464 | stores the document as a new meet, or leaves the store as it was and says why |
| `Omx.FillTable` | internal/app/omx.go:282-289 | one loop: fresh identifier, row, remembered identifier, stopping at the first error |
| `OmxImport.NoUnknownReference` | internal/app/omx.go:251-464 | a valid document reaches no unknown-reference branch: only a rule of the store, on one entity or on keys, can still refuse it |
| `OmxImported.ImportCopies` | internal/app/omx.go:251-464 | a valid document that the store's rules accept, with distinct identifiers and keys, is imported as one copy of every entity under fresh identifiers, as the store keeps it, beside what the store held, under an injective renaming |
| `OmxRoundTrip.RoundTrip` | internal/app/omx.go:50-198 | exporting the new meet then succeeds and gives the document under that renaming, minus exactly what Returned leaves out, cuts or fills in |
| `OmxMeaning.ValidExactly` | internal/exchange/omx.go:253-362 | a document is valid exactly when it names its version, its meet and the meet's name, every entity has the fields it must have, an entry is one athlete's or one team's, and every event, round, unit, entry, club, team and athlete that is pointed at is in the document |
| `OmxMeaning.ComesBack` | internal/app/omx.go:50-198 | import into any store followed by export gives the document under new identifiers changed in exactly these ways: days without a time, blanks filled in, the year of a birth date, no external identifiers, para classes or announcement numbers, no zero schedule, references outside the document dropped, clubs and teams nothing refers to dropped |
| `OmxRoundTrip.LosslessExactly` | internal/exchange/omx.go:33-39 | what the export returns is the whole document renamed, up to round numbers and announcement times, if and only if the document is lossless: no external identifiers, announcement numbers or para classes, whole days, birth years matching birth dates, no zero schedule, clubs and legs within the document, no blank status, source or positioning, no club or team unreferenced |
| `OmxRoundTrip.ComesBackWholeExactly` | internal/app/omx.go:251-464 | import into any store followed by export gives the whole document back if and only if it is lossless |
| `OmxRoundTrip.ExternalIdsAreLost` | internal/store/meet.go:47-70 | a valid document that is accepted and imported, and whose export no longer has the meet's identifier |
| `OmxRoundTrip.RoundsRenumbered` | internal/app/omx.go:341-360 | with distinct sequence numbers the exported rounds are the document's, each numbered by how many of its event come before it |
| `OmxRoundTrip.RenumberingCopies` | internal/app/omx.go:139-140 | importing what was exported numbers the rounds as they were |

## Left out

- SQL, JSON, HTTP, templates, PDF and spreadsheets, event streams, audit rows, backup: I/O. A table is a map or sequence, a committed transaction is one step.
- Passwords, sessions, roles and privacy: authorisation is taken as granted.
- Truly concurrent requests: requests are serialised, crashes happen at transaction boundaries.
- `SaveResult` of `internal/app/results.go`, which only fills the demonstration meet, and `SetUnitWind` of `internal/app/protest.go`, which writes the race's wind and a new version on every result of a track unit: neither carries the announcement guard, so neither is a step of the protocol.
- Changes of the roster: it is a constant of a meet.
- A meet created from a meet document starts with settled results and no trials. What is said of every reachable state is said of meets whose tables start empty.
- What points and record flags a mark gets, wind and lane of settled rows: only whether points and records can be looked up is modelled, since it decides whether a request succeeds.
- Failures of the database itself: a request fails for the reasons its own checks and the schema's keys give.
- Wind is an opaque value with equality. Floating-point scoring formulas and the average of wind readings are not modelled; points are given integers.
- Tokens are counters, and ids are positions or fresh numbers: only distinctness is used.
- Go's stable merge sort is replaced by a stable insertion sort, and its unstable sort of rounds with equal sequence numbers by a stable one. `OmxRoundTrip.RoundsRenumbered` therefore asks for distinct sequence numbers. Where a comparison is not transitive the two stable sorts may settle on different orders of more than twenty rows; the dependence on input order in `CombinedOrder.OrderMattersExactly` is shown for insertion, its independence holds for both.
- Totals, counts and versions are unbounded integers; 64-bit overflow is modelled for parsed numerals and marks only.
- Turning a timing file into rows (status words, splitting of generic columns) and the assignment of timing numbers: rows are given, and timing numbers name track units only.
- The track table, lane draws and manual lane overrides: they rest on a shuffle and on constraints of the store.
- Printing and parsing of schedules: the banner comment is folded into a first row, so the pair is not lossless.
- encoding/csv and bufio are modelled from their documented behaviour, without the scanner's one-megabyte line limit and without invalid UTF-8.
- Mapping profiles and the reading of columns from a CSV upload: rows arrive with their cells. Storing a seed's eligibility is reduced to whether it fails the standard; the eligibility rows a commit writes beside athletes, clubs, registrations and entries are not tables of the model.
- A lookup that takes any one row of several equal ones is modelled as taking the first.
- Scalars of a meet document that are stored and exported unchanged are carried together as one value; moments are dates with a time of day. The JSON schema, the order in which the export lists entities, its closing self-check and the CSV of results are left out.
- Category, record and template validation: single-branch checks that would only add easy members.
- Crash and resend of one batch while other devices write in between is covered by the run theorems of AtMostOnce and NothingLost, not by CrashResend.
