// What holds in every reachable state: stored trials are canonical and belong to their unit's
// series, settled results of unannounced horizontal units agree with the stored trials, and
// queued timing rows only ever name track units.
module Invariants {
  import opened Basics
  import opened Marks
  import opened Vocabulary
  import opened FieldSeries
  import opened Tables
  import opened Capture
  import opened Protocol
  import R = Results

  // --- Stored trials ---

  function AttemptAt(cell: Cell, row: StoredTrial): Attempt {
    Attempt(cell.trial, row.kind, row.mark, row.wind)
  }

  ghost predicate TrialValid(meet: Meet, cell: Cell, row: StoredTrial) {
    && meet.IsUnit(cell.unit, Horizontal) && cell.athlete in meet.roster
    && 1 <= cell.trial <= meet.units[cell.unit].trials
    && Validated(AttemptAt(cell, row), meet.units[cell.unit].windRelevant) == Some(AttemptAt(cell, row))
  }

  ghost predicate TrialsValid(meet: Meet, db: Db) {
    forall cell <- db.trials :: TrialValid(meet, cell, db.trials[cell])
  }

  lemma WrittenTrialValid(meet: Meet, db: Db, unit: string, input: Input)
    requires SaveFieldAttempt(meet, db, unit, input).1.Ok?
    ensures TrialValid(meet, CellOf(unit, input), SaveFieldAttempt(meet, db, unit, input).1.value)
  {
    ValidatedIsNormalForm(input.attempt, meet.units[unit].windRelevant);
  }

  // --- Settled results ---

  // The settled row says what the athlete's stored trials say; no trials, no row.
  ghost predicate SettledAgrees(meet: Meet, db: Db, unit: string, athlete: string) {
    var series, key := SeriesOf(meet, db.trials, unit, athlete), (unit, athlete);
    if series == [] then key !in db.results
    else key in db.results && db.results[key].(version := 0) == SettledFrom(series)
  }

  // The series of an athlete: the stored trials of the unit, in trial order.
  lemma {:induction false} SeriesIsStored(trials: map<Cell, StoredTrial>, unit: string, athlete: string, n: nat)
    ensures var series := SeriesUpTo(trials, unit, athlete, n);
            && (forall i, j :: 0 <= i < j < |series| ==> series[i].trial < series[j].trial)
            && (forall a: Attempt :: a in series <==>
                  1 <= a.trial <= n && Cell(unit, athlete, a.trial) in trials
                  && AttemptAt(Cell(unit, athlete, a.trial), trials[Cell(unit, athlete, a.trial)]) == a)
  {
    if n > 0 { SeriesIsStored(trials, unit, athlete, n - 1); }
  }

  // In so many words: the operator's, without a timing method or detail; retired if any trial says
  // so, otherwise without a mark if none was measured; and the longest mark measured.
  ghost predicate SaysOf(series: seq<Attempt>, r: Settled) {
    && r.source == Operator && r.timing == NoTiming && r.detail == ""
    && r.status == (if exists a <- series :: a.kind.Retire? then Retired
                    else if exists a <- series :: Measured(a) then Unset else NM)
    && if exists a <- series :: Measured(a) then exists a :: Longest(series, a) && r.mark == Canonical(a.mark)
       else r.mark == ""
  }

  // A settled result says exactly that of the stored trials.
  lemma SettledSays(meet: Meet, db: Db, unit: string, athlete: string)
    requires SettledAgrees(meet, db, unit, athlete)
    ensures var series := SeriesOf(meet, db.trials, unit, athlete);
            if series == [] then (unit, athlete) !in db.results
            else (unit, athlete) in db.results && SaysOf(series, db.results[(unit, athlete)])
  {
    var series := SeriesOf(meet, db.trials, unit, athlete);
    if series != [] {
      var r := db.results[(unit, athlete)];
      assert r.(version := 0) == SettledFrom(series);
      FromSays(series, r);
    }
  }

  lemma FromSays(series: seq<Attempt>, r: Settled)
    requires series != [] && r.(version := 0) == SettledFrom(series)
    ensures SaysOf(series, r)
  {
    BestIsLongest(series);
    var s := SettledFrom(series);
    assert r.mark == s.mark && r.status == s.status && r.timing == s.timing && r.detail == s.detail && r.source == s.source;
  }

  ghost predicate AllSettled(meet: Meet, db: Db) {
    forall unit: string, athlete: string ::
      meet.IsUnit(unit, Horizontal) && !db.Announced(unit) ==> SettledAgrees(meet, db, unit, athlete)
  }

  ghost predicate ConflictsOnTrack(meet: Meet, db: Db) {
    forall c <- db.conflicts :: c.unit.Some? ==> meet.IsUnit(c.unit.value, Track)
  }

  ghost predicate Invariant(meet: Meet, db: Db) {
    TrialsValid(meet, db) && AllSettled(meet, db) && ConflictsOnTrack(meet, db)
  }

  lemma {:induction false} EmptySeries(unit: string, athlete: string, n: nat)
    ensures SeriesUpTo(map[], unit, athlete, n) == []
  {
    if n > 0 { EmptySeries(unit, athlete, n - 1); }
  }

  lemma EmptyInvariant(meet: Meet)
    ensures Invariant(meet, EMPTY_DB)
  {
    forall unit: string, athlete: string ensures SettledAgrees(meet, EMPTY_DB, unit, athlete) {
      EmptySeries(unit, athlete, SeriesLength(meet, unit));
    }
  }

  // --- Capture keeps it ---

  // Another athlete's or unit's trial does not enter the series; one's own does.
  lemma {:induction false} SeriesAfterWrite(trials: map<Cell, StoredTrial>, cell: Cell, row: StoredTrial,
                                            unit: string, athlete: string, n: nat)
    ensures cell.unit != unit || cell.athlete != athlete ==>
              SeriesUpTo(trials[cell := row], unit, athlete, n) == SeriesUpTo(trials, unit, athlete, n)
    ensures cell.unit == unit && cell.athlete == athlete && 1 <= cell.trial <= n ==>
              SeriesUpTo(trials[cell := row], unit, athlete, n) != []
  {
    if n > 0 { SeriesAfterWrite(trials, cell, row, unit, athlete, n - 1); }
  }

  lemma WriteSettles(meet: Meet, db: Db, unit: string, input: Input, u: string, a: string)
    requires SaveFieldAttempt(meet, db, unit, input).1.Ok?
    requires (u != unit || a != input.athlete) ==> SettledAgrees(meet, db, u, a)
    ensures SettledAgrees(meet, SaveFieldAttempt(meet, db, unit, input).0, u, a)
  {
    var next := SaveFieldAttempt(meet, db, unit, input).0;
    var row := SaveFieldAttempt(meet, db, unit, input).1.value;
    SeriesAfterWrite(db.trials, CellOf(unit, input), row, u, a, SeriesLength(meet, u));
  }

  lemma SaveKeepsInvariant(meet: Meet, db: Db, unit: string, input: Input)
    requires Invariant(meet, db)
    ensures Invariant(meet, SaveFieldAttempt(meet, db, unit, input).0)
  {
    var (next, row) := SaveFieldAttempt(meet, db, unit, input);
    if row.Ok? {
      SaveFrame(meet, db, unit, input);
      WrittenTrialValid(meet, db, unit, input);
      WrittenCells(meet, db, unit, input);
      forall u: string, a: string | meet.IsUnit(u, Horizontal) && !next.Announced(u)
        ensures SettledAgrees(meet, next, u, a)
      {
        assert !db.Announced(u);
        WriteSettles(meet, db, unit, input, u, a);
      }
    }
  }

  lemma WrittenCells(meet: Meet, db: Db, unit: string, input: Input)
    requires SaveFieldAttempt(meet, db, unit, input).1.Ok?
    ensures var (next, row) := SaveFieldAttempt(meet, db, unit, input);
            next.trials == db.trials[CellOf(unit, input) := row.value]
  {}

  // Only trials, results, announcements and the conflict queue matter to the invariant.
  lemma SameTables(meet: Meet, db: Db, next: Db)
    requires Invariant(meet, db)
    requires next.trials == db.trials && next.results == db.results
    requires next.announcements == db.announcements && next.conflicts == db.conflicts
    ensures Invariant(meet, next)
  {
    forall u: string, a: string | meet.IsUnit(u, Horizontal) && !next.Announced(u)
      ensures SettledAgrees(meet, next, u, a)
    {
      assert SettledAgrees(meet, db, u, a);
    }
  }

  // --- Result steps keep it ---

  // Results of every other unit are as before; if unit is horizontal, it is announced now.
  ghost predicate ChangesOnly(meet: Meet, db: Db, next: Db, unit: string) {
    && next.trials == db.trials
    && (forall u: string, a: string :: u != unit ==>
          ((u, a) in next.results <==> (u, a) in db.results)
          && ((u, a) in db.results ==> next.results[(u, a)] == db.results[(u, a)]))
    && (forall u: string :: db.Announced(u) ==> next.Announced(u))
    && (meet.IsUnit(unit, Horizontal) ==> next.results == db.results || next.Announced(unit))
    && ConflictsOnTrack(meet, next)
  }

  lemma ChangesOnlyKeeps(meet: Meet, db: Db, next: Db, unit: string)
    requires Invariant(meet, db) && ChangesOnly(meet, db, next, unit)
    ensures Invariant(meet, next)
  {
    forall u: string, a: string | meet.IsUnit(u, Horizontal) && !next.Announced(u)
      ensures SettledAgrees(meet, next, u, a)
    {
      assert !db.Announced(u) && SettledAgrees(meet, db, u, a);
    }
  }

  lemma UpsertElsewhere(results: map<(string, string), Settled>, unit: string, athlete: string, r: Settled)
    ensures forall u: string, a: string :: u != unit ==>
              ((u, a) in Upsert(results, unit, athlete, r) <==> (u, a) in results)
              && ((u, a) in results ==> Upsert(results, unit, athlete, r)[(u, a)] == results[(u, a)])
  {}

  // Amending a row and announcing in the same step.
  lemma AmendKeeps(meet: Meet, db: Db, unit: string, athlete: string, r: Settled, now: int)
    requires Invariant(meet, db)
    ensures Invariant(meet, R.Announce(db.(results := Upsert(db.results, unit, athlete, r)), unit, now))
  {
    var next := R.Announce(db.(results := Upsert(db.results, unit, athlete, r)), unit, now);
    UpsertElsewhere(db.results, unit, athlete, r);
    assert ChangesOnly(meet, db, next, unit);
    ChangesOnlyKeeps(meet, db, next, unit);
  }

  lemma CorrectKeeps(meet: Meet, db: Db, unit: string, athlete: string, c: R.Correction, now: int)
    requires Invariant(meet, db)
    ensures Invariant(meet, R.CorrectResult(meet, db, unit, athlete, c, now).0)
  {
    if unit in meet.units {
      var row := R.CorrectedRow(meet.units[unit].family, c);
      if row.Ok? { AmendKeeps(meet, db, unit, athlete, row.value, now); }
    }
  }

  // A write to a unit that is not horizontal disturbs nothing the invariant speaks about.
  lemma OtherFamilyKeeps(meet: Meet, db: Db, next: Db, unit: string, athlete: string, r: Settled)
    requires Invariant(meet, db) && !meet.IsUnit(unit, Horizontal)
    requires next.trials == db.trials && next.announcements == db.announcements && next.conflicts == db.conflicts
    requires next.results == Upsert(db.results, unit, athlete, r)
    ensures Invariant(meet, next)
  {
    UpsertElsewhere(db.results, unit, athlete, r);
    assert ChangesOnly(meet, db, next, unit);
    ChangesOnlyKeeps(meet, db, next, unit);
  }

  lemma AnnounceKeeps(meet: Meet, db: Db, unit: string, now: int)
    requires Invariant(meet, db)
    ensures Invariant(meet, R.AnnounceUnitResults(meet, db, unit, now).0)
  {
    assert ChangesOnly(meet, db, R.AnnounceUnitResults(meet, db, unit, now).0, unit);
    ChangesOnlyKeeps(meet, db, R.AnnounceUnitResults(meet, db, unit, now).0, unit);
  }

  lemma OptimisticKeeps(meet: Meet, db: Db, unit: string, athlete: string, r: Settled, expected: int)
    requires Invariant(meet, db) && !meet.IsUnit(unit, Horizontal)
    ensures Invariant(meet, R.SaveOptimistic(db, unit, athlete, r, expected).0)
  {
    var (next, done) := R.SaveOptimistic(db, unit, athlete, r, expected);
    if done.Ok? { OtherFamilyKeeps(meet, db, next, unit, athlete, r); }
  }

  lemma TrackKeeps(meet: Meet, db: Db, unit: string, input: R.TrackInput)
    requires Invariant(meet, db)
    ensures Invariant(meet, R.SaveTrackResult(meet, db, unit, input).0)
  {
    var (next, done) := R.SaveTrackResult(meet, db, unit, input);
    if done.Err? {
      RefusedTrack(meet, db, unit, input);
    } else if input.expected.Some? {
      OptimisticKeeps(meet, db, unit, input.athlete, R.CapturedRow(meet, unit, input).value, input.expected.value);
    } else {
      UnversionedKeeps(meet, db, unit, input);
    }
  }

  lemma UnversionedKeeps(meet: Meet, db: Db, unit: string, input: R.TrackInput)
    requires Invariant(meet, db) && input.expected.None? && R.SaveTrackResult(meet, db, unit, input).1.Ok?
    ensures Invariant(meet, R.SaveTrackResult(meet, db, unit, input).0)
  {
    OtherFamilyKeeps(meet, db, R.SaveTrackResult(meet, db, unit, input).0, unit, input.athlete,
                     R.CapturedRow(meet, unit, input).value);
  }

  lemma RefusedTrack(meet: Meet, db: Db, unit: string, input: R.TrackInput)
    ensures R.SaveTrackResult(meet, db, unit, input).1.Err? ==> R.SaveTrackResult(meet, db, unit, input).0 == db
  {}

  lemma BarKeeps(meet: Meet, db: Db, unit: string, input: R.BarInput)
    requires Invariant(meet, db)
    ensures Invariant(meet, R.SaveVerticalTrial(meet, db, unit, input).0)
  {
    var (next, done) := R.SaveVerticalTrial(meet, db, unit, input);
    if done.Ok? {
      BarFrame(meet, db, unit, input);
      var heights := db.heights[unit].heights;
      var settled := R.SettledBars(heights, R.BarsOf(next.bars, unit, input.athlete));
      OtherFamilyKeeps(meet, db, next, unit, input.athlete, settled);
    }
  }

  lemma {:induction false} MarkDNSKeeps(meet: Meet, db: Db, unit: string, athletes: seq<string>)
    requires Invariant(meet, db) && !meet.IsUnit(unit, Horizontal)
    ensures Invariant(meet, R.MarkDNS(db, unit, athletes).0)
  {
    if athletes != [] {
      var init := athletes[..|athletes| - 1];
      MarkDNSKeeps(meet, db, unit, init);
      OptimisticKeeps(meet, R.MarkDNS(db, unit, init).0, unit, athletes[|athletes| - 1], R.DNS_ROW, 0);
    }
  }

  lemma ApplyRowKeeps(meet: Meet, db: Db, unit: string, athlete: string, row: TimingRow, source: Source)
    requires Invariant(meet, db) && !meet.IsUnit(unit, Horizontal)
    ensures Invariant(meet, R.ApplyTimingRow(meet, db, unit, athlete, row, source).0)
  {
    var (next, done) := R.ApplyTimingRow(meet, db, unit, athlete, row, source);
    if done.Ok? {
      ApplyRowFrame(meet, db, unit, athlete, row, source);
      var mark := if row.mark != "" then R.TimedMark(row.mark, row.timing) else Ok("");
      var r := Settled(mark.value, if row.mark != "" then row.timing else NoTiming, row.status, row.detail, source, 0);
      OtherFamilyKeeps(meet, db, next, unit, athlete, r);
    }
  }

  lemma QueueKeeps(meet: Meet, db: Db, unit: Option<string>, athlete: Option<string>, reason: ConflictReason,
                   row: TimingRow, source: Source)
    requires Invariant(meet, db) && (unit.Some? ==> meet.IsUnit(unit.value, Track))
    ensures Invariant(meet, R.Queue(db, unit, athlete, reason, row, source))
  {
    var next := R.Queue(db, unit, athlete, reason, row, source);
    assert ChangesOnly(meet, db, next, "");
    ChangesOnlyKeeps(meet, db, next, "");
  }

  lemma ImportKeeps(meet: Meet, db: Db, row: TimingRow, source: Source)
    requires Invariant(meet, db) && meet.Valid()
    ensures Invariant(meet, R.ImportRow(meet, db, row, source).0)
  {
    if !row.blank {
      var t := R.Resolved(meet, db, row);
      if t.reason.Some? || t.unit.None? || t.athlete.None? {
        QueueKeeps(meet, db, t.unit, t.athlete, if t.reason.Some? then t.reason.value else UnknownBib, row, source);
      } else {
        ApplyRowKeeps(meet, db, t.unit.value, t.athlete.value, row, source);
      }
    }
  }

  lemma WriteChoiceKeeps(meet: Meet, db: Db, c: Conflict, choice: R.Choice, now: int)
    requires Invariant(meet, db) && c in db.conflicts
    ensures Invariant(meet, R.WriteChoice(meet, db, c, choice, now).0)
  {
    if c.unit.Some? {
      var unit, athlete, row := c.unit.value, R.ChosenAthlete(c, choice), R.ChosenRow(db, c, choice);
      ApplyRowKeeps(meet, db, unit, athlete, row, c.source);
      CorrectKeeps(meet, db, unit, athlete, R.CorrectionFrom(row, choice), now);
    }
  }

  lemma SetConflictKeeps(meet: Meet, db: Db, index: nat, status: ConflictStatus)
    requires Invariant(meet, db) && index < |db.conflicts|
    ensures Invariant(meet, R.SetConflict(db, index, status).0)
  {
    var next := R.SetConflict(db, index, status).0;
    SetConflictFrame(db, index, status);
    assert db.conflicts[index] in db.conflicts;
    forall u: string, a: string | meet.IsUnit(u, Horizontal) && !next.Announced(u)
      ensures SettledAgrees(meet, next, u, a)
    {
      assert SettledAgrees(meet, db, u, a);
    }
  }

  lemma ResolveTimingKeeps(meet: Meet, db: Db, index: nat, choice: R.Choice, now: int)
    requires Invariant(meet, db)
    ensures Invariant(meet, R.ResolveTimingConflict(meet, db, index, choice, now).0)
  {
    if index < |db.conflicts| {
      WriteChoiceKeeps(meet, db, db.conflicts[index], choice, now);
      var saved := R.WriteChoice(meet, db, db.conflicts[index], choice, now).0;
      SetConflictKeeps(meet, db, index, if choice.action.Keep? then Kept else Discarded);
      if index < |saved.conflicts| {
        SetConflictKeeps(meet, saved, index, if choice.action.Merge? then Merged else Replaced);
      }
    }
  }

  lemma ResultStepKeeps(meet: Meet, db: Db, s: Step)
    requires Invariant(meet, db) && meet.Valid()
    ensures Invariant(meet, ResultStep(meet, db, s))
  {
    match s
    case AnnounceUnit(unit, now) => AnnounceKeeps(meet, db, unit, now);
    case Correct(unit, athlete, correction, now) => CorrectKeeps(meet, db, unit, athlete, correction, now);
    case CaptureTrack(unit, track) => TrackKeeps(meet, db, unit, track);
    case CaptureBar(unit, bar) => BarKeeps(meet, db, unit, bar);
    case BulkDNS(unit) => BulkKeeps(meet, db, unit);
    case ImportTimingRow(row, source) => ImportKeeps(meet, db, row, source);
    case SetHeights(unit, heights, expected) => HeightsKeep(meet, db, unit, heights, expected);
    case BulkStopped(unit, n) => BulkCutKeeps(meet, db, unit, n);
    case ResolveTiming(index, choice, now) => ResolveTimingKeeps(meet, db, index, choice, now);
    case TimingStopped(index, choice, now) =>
      if index < |db.conflicts| { WriteChoiceKeeps(meet, db, db.conflicts[index], choice, now); }
    case _ =>
  }

  lemma BulkKeeps(meet: Meet, db: Db, unit: string)
    requires Invariant(meet, db)
    ensures Invariant(meet, R.BulkMarkRemainingDNS(meet, db, unit).0)
  {
    if !meet.IsUnit(unit, Horizontal) { MarkDNSKeeps(meet, db, unit, R.Unresulted(db, unit, meet.roster)); }
  }

  lemma BulkCutKeeps(meet: Meet, db: Db, unit: string, n: nat)
    requires Invariant(meet, db)
    ensures Invariant(meet, R.BulkCut(meet, db, unit, n))
  {
    var open := R.Unresulted(db, unit, meet.roster);
    if meet.IsUnit(unit, Track) { MarkDNSKeeps(meet, db, unit, if n < |open| then open[..n] else open); }
  }

  lemma HeightsKeep(meet: Meet, db: Db, unit: string, heights: seq<string>, expected: int)
    requires Invariant(meet, db)
    ensures Invariant(meet, R.SetHeights(meet, db, unit, heights, expected).0)
  {
    HeightsFrame(meet, db, unit, heights, expected);
    SameTables(meet, db, R.SetHeights(meet, db, unit, heights, expected).0);
  }

  // --- Every step, every run ---

  lemma StepKeepsInvariant(meet: Meet, db: Db, s: Step)
    requires Invariant(meet, db) && meet.Valid()
    ensures Invariant(meet, Apply(meet, db, s))
  {
    if IsLockStep(s) {
      LockStepFrame(meet, db, s);
      SameTables(meet, db, LockStep(meet, db, s));
    } else if IsCaptureStep(s) {
      var w := TrialWrite(meet, db, s);
      CaptureStepFrame(meet, db, s);
      if w.Some? { SaveKeepsInvariant(meet, db, w.value.0, w.value.1); }
      SameTables(meet, AfterWrite(meet, db, w), CaptureStep(meet, db, s));
    } else {
      ResultStepKeeps(meet, db, s);
    }
  }

  lemma {:induction false} RunKeepsInvariant(meet: Meet, db: Db, run: seq<Step>)
    requires Invariant(meet, db) && meet.Valid()
    ensures Invariant(meet, Exec(meet, db, run))
  {
    if run != [] {
      RunKeepsInvariant(meet, db, run[..|run| - 1]);
      StepKeepsInvariant(meet, Exec(meet, db, run[..|run| - 1]), run[|run| - 1]);
    }
  }
}
