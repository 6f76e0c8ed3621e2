// A posted result list stays as it was posted: between two announcements of a unit none of
// its results changes, and what changes them is a reasoned correction that posts again.
module AnnouncedResults {
  import opened Basics
  import opened Text
  import opened Tables
  import opened Capture
  import opened Protocol
  import opened Invariants
  import R = Results

  ghost predicate SameResults(db: Db, next: Db, unit: string) {
    forall a: string ::
      ((unit, a) in next.results <==> (unit, a) in db.results)
      && ((unit, a) in db.results ==> next.results[(unit, a)] == db.results[(unit, a)])
  }

  // The step leaves this announced unit alone.
  ghost predicate Untouched(db: Db, next: Db, unit: string) {
    SameResults(db, next, unit) && next.announcements == db.announcements
  }

  // Within the unit, at most this athlete's row differs.
  ghost predicate OthersKept(db: Db, next: Db, unit: string, athlete: string) {
    forall a: string :: a != athlete ==>
      ((unit, a) in next.results <==> (unit, a) in db.results)
      && ((unit, a) in db.results ==> next.results[(unit, a)] == db.results[(unit, a)])
  }

  // A correction of one athlete of this unit that carries what the rules ask for, shows the
  // corrected status and posts the list again.
  ghost predicate Corrected(db: Db, next: Db, unit: string, athlete: string, c: R.Correction, now: int) {
    && OthersKept(db, next, unit, athlete)
    && (unit, athlete) in next.results && next.results[(unit, athlete)].status == c.status
    && unit in db.announcements && unit in next.announcements
    && TrimSpace(c.reason) != ""
    && (R.ComputeProtestState(db, unit, now).official ==> TrimSpace(c.escalation) != "")
    && next.announcements[unit] == db.announcements[unit] + [now]
  }

  lemma UpsertOther(db: Db, next: Db, unit: string, athlete: string, r: Settled, watched: string)
    requires watched != unit && next.results == Upsert(db.results, unit, athlete, r)
    ensures SameResults(db, next, watched)
  {
    UpsertElsewhere(db.results, unit, athlete, r);
  }

  // --- Capture ---

  lemma SaveFrozen(meet: Meet, db: Db, unit: string, input: Input, watched: string)
    requires db.Announced(watched)
    ensures Untouched(db, SaveFieldAttempt(meet, db, unit, input).0, watched)
  {
    var (next, row) := SaveFieldAttempt(meet, db, unit, input);
    SaveFrame(meet, db, unit, input);
    if row.Ok? {
      WrittenElsewhere(meet, db, unit, input);
      UpsertOther(db, next, unit, input.athlete,
                  SettledFrom(SeriesOf(meet, next.trials, unit, input.athlete)), watched);
    }
  }

  lemma WrittenElsewhere(meet: Meet, db: Db, unit: string, input: Input)
    requires SaveFieldAttempt(meet, db, unit, input).1.Ok?
    ensures var next := SaveFieldAttempt(meet, db, unit, input).0;
            !db.Announced(unit) && next.results ==
              Upsert(db.results, unit, input.athlete, SettledFrom(SeriesOf(meet, next.trials, unit, input.athlete)))
  {}

  lemma CaptureFrozen(meet: Meet, db: Db, s: Step, watched: string)
    requires db.Announced(watched) && IsCaptureStep(s)
    ensures Untouched(db, Apply(meet, db, s), watched)
  {
    var w := TrialWrite(meet, db, s);
    CaptureStepFrame(meet, db, s);
    if w.Some? { SaveFrozen(meet, db, w.value.0, w.value.1, watched); }
  }

  // --- Corrections ---

  lemma CorrectFrozen(meet: Meet, db: Db, unit: string, athlete: string, c: R.Correction, now: int, watched: string)
    requires db.Announced(watched)
    ensures var next := R.CorrectResult(meet, db, unit, athlete, c, now).0;
            if unit == watched then next == db || Corrected(db, next, watched, athlete, c, now)
            else SameResults(db, next, watched) && watched in next.announcements
                 && next.announcements[watched] == db.announcements[watched]
  {
    if unit in meet.units {
      var row := R.CorrectedRow(meet.units[unit].family, c);
      if row.Ok? {
        var next := R.Announce(db.(results := Upsert(db.results, unit, athlete, row.value)), unit, now);
        if unit != watched { UpsertOther(db, next, unit, athlete, row.value, watched); }
      }
    }
  }

  // --- Other result steps ---

  lemma ApplyRowElsewhere(meet: Meet, db: Db, unit: string, athlete: string, row: TimingRow, source: Source, watched: string)
    requires unit != watched
    ensures Untouched(db, R.ApplyTimingRow(meet, db, unit, athlete, row, source).0, watched)
  {
    var (next, done) := R.ApplyTimingRow(meet, db, unit, athlete, row, source);
    ApplyRowFrame(meet, db, unit, athlete, row, source);
    if done.Ok? { UpsertOther(db, next, unit, athlete, AppliedRow(row, source), watched); }
  }

  // The result a timing row is written as.
  function AppliedRow(row: TimingRow, source: Source): Settled {
    var mark := if row.mark != "" then R.TimedMark(row.mark, row.timing) else Ok("");
    Settled(if mark.Ok? then mark.value else "", if row.mark != "" then row.timing else NoTiming,
            row.status, row.detail, source, 0)
  }

  lemma ImportFrozen(meet: Meet, db: Db, row: TimingRow, source: Source, watched: string)
    requires db.Announced(watched)
    ensures Untouched(db, R.ImportRow(meet, db, row, source).0, watched)
  {
    ImportFrame(meet, db, row, source);
    var t := R.Resolved(meet, db, row);
    if t.unit.Some? && t.athlete.Some? && t.unit.value != watched {
      ApplyRowElsewhere(meet, db, t.unit.value, t.athlete.value, row, source, watched);
    }
  }

  lemma OptimisticElsewhere(db: Db, unit: string, athlete: string, r: Settled, expected: int, watched: string)
    requires unit != watched
    ensures Untouched(db, R.SaveOptimistic(db, unit, athlete, r, expected).0, watched)
  {
    var (next, done) := R.SaveOptimistic(db, unit, athlete, r, expected);
    if done.Ok? { UpsertOther(db, next, unit, athlete, r, watched); }
  }

  lemma {:induction false} MarkDNSElsewhere(db: Db, unit: string, athletes: seq<string>, watched: string)
    requires unit != watched
    ensures Untouched(db, R.MarkDNS(db, unit, athletes).0, watched)
  {
    if athletes != [] {
      var init := athletes[..|athletes| - 1];
      MarkDNSElsewhere(db, unit, init, watched);
      OptimisticElsewhere(R.MarkDNS(db, unit, init).0, unit, athletes[|athletes| - 1], R.DNS_ROW, 0, watched);
    }
  }

  lemma TrackFrozen(meet: Meet, db: Db, unit: string, input: R.TrackInput, watched: string)
    requires db.Announced(watched)
    ensures Untouched(db, R.SaveTrackResult(meet, db, unit, input).0, watched)
  {
    var (next, done) := R.SaveTrackResult(meet, db, unit, input);
    RefusedTrack(meet, db, unit, input);
    if done.Ok? {
      UpsertOther(db, next, unit, input.athlete, R.CapturedRow(meet, unit, input).value, watched);
    }
  }

  lemma BarFrozen(meet: Meet, db: Db, unit: string, input: R.BarInput, watched: string)
    requires db.Announced(watched)
    ensures Untouched(db, R.SaveVerticalTrial(meet, db, unit, input).0, watched)
  {
    var (next, done) := R.SaveVerticalTrial(meet, db, unit, input);
    BarFrame(meet, db, unit, input);
    if done.Ok? {
      var heights := db.heights[unit].heights;
      UpsertOther(db, next, unit, input.athlete,
                  R.SettledBars(heights, R.BarsOf(next.bars, unit, input.athlete)), watched);
    }
  }

  lemma BulkFrozen(meet: Meet, db: Db, unit: string, watched: string)
    requires db.Announced(watched)
    ensures Untouched(db, R.BulkMarkRemainingDNS(meet, db, unit).0, watched)
  {
    if unit != watched { MarkDNSElsewhere(db, unit, R.Unresulted(db, unit, meet.roster), watched); }
  }

  lemma BulkCutFrozen(meet: Meet, db: Db, unit: string, n: nat, watched: string)
    requires db.Announced(watched)
    ensures Untouched(db, R.BulkCut(meet, db, unit, n), watched)
  {
    var open := R.Unresulted(db, unit, meet.roster);
    if unit != watched { MarkDNSElsewhere(db, unit, if n < |open| then open[..n] else open, watched); }
  }

  // The unit's own list is as it was, though other units may have been posted meanwhile.
  ghost predicate Frozen(db: Db, next: Db, unit: string) {
    && SameResults(db, next, unit)
    && unit in db.announcements && unit in next.announcements
    && next.announcements[unit] == db.announcements[unit]
  }

  lemma WriteChoiceFrozen(meet: Meet, db: Db, c: Conflict, choice: R.Choice, now: int, watched: string)
    requires db.Announced(watched)
    ensures var next := R.WriteChoice(meet, db, c, choice, now).0;
            if c.unit == Some(watched)
            then next == db || Corrected(db, next, watched, R.ChosenAthlete(c, choice),
                                         R.CorrectionFrom(R.ChosenRow(db, c, choice), choice), now)
            else Frozen(db, next, watched)
  {
    if c.unit.Some? {
      var unit, athlete, row := c.unit.value, R.ChosenAthlete(c, choice), R.ChosenRow(db, c, choice);
      CorrectFrozen(meet, db, unit, athlete, R.CorrectionFrom(row, choice), now, watched);
      if unit != watched { ApplyRowElsewhere(meet, db, unit, athlete, row, c.source, watched); }
    }
  }

  // --- One step ---

  // The correction a step may carry, with the unit and athlete it is about and its time.
  function CorrectionOf(db: Db, s: Step): Option<(string, string, R.Correction, int)> {
    match s
    case Correct(unit, athlete, c, now) => Some((unit, athlete, c, now))
    case ResolveTiming(index, choice, now) => DecidedCorrection(db, index, choice, now)
    case TimingStopped(index, choice, now) => DecidedCorrection(db, index, choice, now)
    case _ => None
  }

  function DecidedCorrection(db: Db, index: nat, choice: R.Choice, now: int): Option<(string, string, R.Correction, int)> {
    if index < |db.conflicts| && db.conflicts[index].unit.Some? then
      var c := db.conflicts[index];
      Some((c.unit.value, R.ChosenAthlete(c, choice), R.CorrectionFrom(R.ChosenRow(db, c, choice), choice), now))
    else None
  }

  ghost predicate CorrectedBy(db: Db, next: Db, s: Step, unit: string) {
    && CorrectionOf(db, s).Some?
    && var (corrected, athlete, c, now) := CorrectionOf(db, s).value;
       corrected == unit && Corrected(db, next, unit, athlete, c, now)
  }

  // An announced unit is left alone, posted again unchanged, or corrected as the rules ask.
  lemma StepFreezes(meet: Meet, db: Db, s: Step, unit: string)
    requires db.Announced(unit)
    ensures var next := Apply(meet, db, s);
            || Frozen(db, next, unit)
            || (s.AnnounceUnit? && s.unit == unit && SameResults(db, next, unit)
                && unit in next.announcements && next.announcements[unit] == db.announcements[unit] + [s.now])
            || CorrectedBy(db, next, s, unit)
  {
    if IsLockStep(s) {
      LockStepFrame(meet, db, s);
    } else if IsCaptureStep(s) {
      CaptureFrozen(meet, db, s, unit);
    } else {
      ResultStepFreezes(meet, db, s, unit);
    }
  }

  lemma ResultStepFreezes(meet: Meet, db: Db, s: Step, watched: string)
    requires db.Announced(watched)
    ensures var next := ResultStep(meet, db, s);
            || Frozen(db, next, watched)
            || (s.AnnounceUnit? && s.unit == watched && SameResults(db, next, watched)
                && watched in next.announcements && next.announcements[watched] == db.announcements[watched] + [s.now])
            || CorrectedBy(db, next, s, watched)
  {
    match s
    case Correct(unit, athlete, c, now) => CorrectFrozen(meet, db, unit, athlete, c, now, watched);
    case ResolveTiming(index, choice, now) => ResolveTimingFreezes(meet, db, index, choice, now, watched);
    case TimingStopped(index, choice, now) => TimingCutFreezes(meet, db, index, choice, now, watched);
    case AnnounceUnit(unit, now) => AnnounceFreezes(meet, db, unit, now, watched);
    case _ => RefusedStep(meet, db, s, watched);
  }

  lemma AnnounceFreezes(meet: Meet, db: Db, unit: string, now: int, watched: string)
    requires db.Announced(watched)
    ensures var next := R.AnnounceUnitResults(meet, db, unit, now).0;
            Frozen(db, next, watched)
            || (unit == watched && SameResults(db, next, watched)
                && watched in next.announcements && next.announcements[watched] == db.announcements[watched] + [now])
  {}

  lemma TimingCutFreezes(meet: Meet, db: Db, index: nat, choice: R.Choice, now: int, watched: string)
    requires db.Announced(watched)
    ensures var next := R.ResolveTimingCut(meet, db, index, choice, now);
            Frozen(db, next, watched) || CorrectedBy(db, next, TimingStopped(index, choice, now), watched)
  {
    if index < |db.conflicts| { WriteChoiceFrozen(meet, db, db.conflicts[index], choice, now, watched); }
  }

  // Capture, bulk DNS and timing files do not reach an announced unit.
  lemma RefusedStep(meet: Meet, db: Db, s: Step, watched: string)
    requires db.Announced(watched)
    requires !s.Correct? && !s.ResolveTiming? && !s.TimingStopped? && !s.AnnounceUnit?
    ensures Frozen(db, ResultStep(meet, db, s), watched)
  {
    match s
    case SetHeights(unit, heights, expected) => HeightsFrame(meet, db, unit, heights, expected);
    case CaptureTrack(unit, track) => TrackFrozen(meet, db, unit, track, watched);
    case CaptureBar(unit, bar) => BarFrozen(meet, db, unit, bar, watched);
    case BulkDNS(unit) => BulkFrozen(meet, db, unit, watched);
    case BulkStopped(unit, n) => BulkCutFrozen(meet, db, unit, n, watched);
    case ImportTimingRow(row, source) => ImportFrozen(meet, db, row, source, watched);
    case _ =>
  }

  lemma ResolveTimingFreezes(meet: Meet, db: Db, index: nat, choice: R.Choice, now: int, watched: string)
    requires db.Announced(watched)
    ensures var next := R.ResolveTimingConflict(meet, db, index, choice, now).0;
            Frozen(db, next, watched) || CorrectedBy(db, next, ResolveTiming(index, choice, now), watched)
  {
    if index < |db.conflicts| {
      if choice.action.Keep? || choice.action.Discard? {
        SetConflictFrame(db, index, if choice.action.Keep? then Kept else Discarded);
      } else {
        WrittenChoiceFreezes(meet, db, index, choice, now, watched);
      }
    }
  }

  lemma WrittenChoiceFreezes(meet: Meet, db: Db, index: nat, choice: R.Choice, now: int, watched: string)
    requires db.Announced(watched) && index < |db.conflicts| && !choice.action.Keep? && !choice.action.Discard?
    ensures var next := R.ResolveTimingConflict(meet, db, index, choice, now).0;
            Frozen(db, next, watched) || CorrectedBy(db, next, ResolveTiming(index, choice, now), watched)
  {
    var c := db.conflicts[index];
    var saved := R.WriteChoice(meet, db, c, choice, now).0;
    var next := R.ResolveTimingConflict(meet, db, index, choice, now).0;
    WriteChoiceFrozen(meet, db, c, choice, now, watched);
    ClosingKeepsResults(meet, db, index, choice, now);
    SameFate(db, saved, next, watched, R.ChosenAthlete(c, choice),
             R.CorrectionFrom(R.ChosenRow(db, c, choice), choice), now);
  }

  // What follows the write only touches the queue.
  lemma ClosingKeepsResults(meet: Meet, db: Db, index: nat, choice: R.Choice, now: int)
    requires index < |db.conflicts| && !choice.action.Keep? && !choice.action.Discard?
    ensures var saved, next := R.WriteChoice(meet, db, db.conflicts[index], choice, now).0,
                               R.ResolveTimingConflict(meet, db, index, choice, now).0;
            next.results == saved.results && next.announcements == saved.announcements
  {
    var saved := R.WriteChoice(meet, db, db.conflicts[index], choice, now).0;
    WriteChoiceFrame(meet, db, db.conflicts[index], choice, now);
    SetConflictFrame(saved, index, if choice.action.Merge? then Merged else Replaced);
  }

  lemma SameFate(db: Db, saved: Db, next: Db, unit: string, athlete: string, c: R.Correction, now: int)
    requires next.results == saved.results && next.announcements == saved.announcements
    ensures Frozen(db, saved, unit) ==> Frozen(db, next, unit)
    ensures Corrected(db, saved, unit, athlete, c, now) ==> Corrected(db, next, unit, athlete, c, now)
  {}

  // --- Runs ---

  lemma {:induction false} AnnouncementsGrow(meet: Meet, db: Db, run: seq<Step>, unit: string)
    requires db.Announced(unit)
    ensures var next := Exec(meet, db, run);
            next.Announced(unit) && db.announcements[unit] <= next.announcements[unit]
  {
    if run != [] {
      AnnouncementsGrow(meet, db, run[..|run| - 1], unit);
      StepFreezes(meet, Exec(meet, db, run[..|run| - 1]), run[|run| - 1], unit);
    }
  }

  // However long the run, as long as the unit was not posted again its results are those
  // that were posted.
  lemma {:induction false} FrozenBetweenAnnouncements(meet: Meet, db: Db, run: seq<Step>, unit: string)
    requires db.Announced(unit)
    requires unit in Exec(meet, db, run).announcements
    requires Exec(meet, db, run).announcements[unit] == db.announcements[unit]
    ensures SameResults(db, Exec(meet, db, run), unit)
  {
    if run != [] {
      var init, s := run[..|run| - 1], run[|run| - 1];
      AnnouncementsGrow(meet, db, init, unit);
      StepFreezes(meet, Exec(meet, db, init), s, unit);
      FrozenBetweenAnnouncements(meet, db, init, unit);
    }
  }

  // --- Timing files ---

  // A non-blank result an operator entered.
  predicate ManualResult(db: Db, key: (string, string)) {
    key in db.results && db.results[key].source == Operator && !R.Blank(db.results[key])
  }

  ghost predicate ManualKept(db: Db, next: Db) {
    forall key <- db.results :: ManualResult(db, key) ==> key in next.results && next.results[key] == db.results[key]
  }

  // Exactly one result is written, in a unit not yet announced.
  ghost predicate OneWrite(db: Db, next: Db, row: TimingRow, source: Source) {
    && next.conflicts == db.conflicts && ManualKept(db, next)
    && exists unit: string, athlete: string ::
         !db.Announced(unit) && next.results == Upsert(db.results, unit, athlete, AppliedRow(row, source))
  }

  // Exactly one open queue row is added, carrying the file's row; no result changes.
  ghost predicate OneConflict(db: Db, next: Db, row: TimingRow) {
    && next.results == db.results && |next.conflicts| == |db.conflicts| + 1
    && next.conflicts[..|db.conflicts|] == db.conflicts
    && next.conflicts[|db.conflicts|].row == row && next.conflicts[|db.conflicts|].status.Open?
  }

  lemma QueuesOne(db: Db, unit: Option<string>, athlete: Option<string>, reason: ConflictReason, row: TimingRow, source: Source)
    ensures OneConflict(db, R.Queue(db, unit, athlete, reason, row, source), row)
  {}

  lemma WritesOne(meet: Meet, db: Db, unit: string, athlete: string, row: TimingRow, source: Source)
    requires R.TimingWriteConflict(db, unit, athlete).None?
    ensures var (next, done) := R.ApplyTimingRow(meet, db, unit, athlete, row, source);
            if done.Ok? then OneWrite(db, next, row, source) else next == db
  {
    WrittenRow(meet, db, unit, athlete, row, source);
  }

  // Each row is skipped as blank, written to exactly one result, or queued exactly once.
  lemma RowHasOneFate(meet: Meet, db: Db, row: TimingRow, source: Source)
    ensures var (next, outcome) := R.ImportRow(meet, db, row, source);
            match outcome
            case Err(_) => next == db && !row.blank
            case Ok(fate) =>
              match fate
              case Skipped => next == db && row.blank
              case Written => OneWrite(db, next, row, source) && !row.blank
              case Queued => OneConflict(db, next, row) && !row.blank
  {
    if !row.blank {
      var t := R.Resolved(meet, db, row);
      if t.reason.Some? || t.unit.None? || t.athlete.None? {
        QueuesOne(db, t.unit, t.athlete, if t.reason.Some? then t.reason.value else UnknownBib, row, source);
      } else {
        WritesOne(meet, db, t.unit.value, t.athlete.value, row, source);
      }
    }
  }

  lemma WrittenRow(meet: Meet, db: Db, unit: string, athlete: string, row: TimingRow, source: Source)
    ensures var (next, done) := R.ApplyTimingRow(meet, db, unit, athlete, row, source);
            && (done.Ok? ==> next == db.(results := Upsert(db.results, unit, athlete, AppliedRow(row, source))))
            && (done.Err? ==> next == db)
  {}

  function NonBlank(rows: seq<TimingRow>): nat {
    if rows == [] then 0
    else NonBlank(rows[..|rows| - 1]) + if rows[|rows| - 1].blank then 0 else 1
  }

  // A successful import accounts for every non-blank row and touches no manual result.
  lemma {:induction false} ImportConserves(meet: Meet, db: Db, rows: seq<TimingRow>, source: Source)
    ensures var (next, counts) := R.ImportRows(meet, db, rows, source);
            && ManualKept(db, next) && |next.conflicts| >= |db.conflicts|
            && (counts.Ok? ==>
                  counts.value.written + counts.value.queued == NonBlank(rows)
                  && |next.conflicts| == |db.conflicts| + counts.value.queued)
  {
    if rows != [] {
      var init := rows[..|rows| - 1];
      ImportConserves(meet, db, init, source);
      RowHasOneFate(meet, R.ImportRows(meet, db, init, source).0, rows[|rows| - 1], source);
    }
  }

  // --- What a decision on a queued row writes ---

  lemma UpsertChanges(results: map<(string, string), Settled>, unit: string, athlete: string, r: Settled)
    ensures Upsert(results, unit, athlete, r) != results
  {
    var key := (unit, athlete);
    assert Upsert(results, unit, athlete, r)[key].version != if key in results then results[key].version else 0;
  }

  lemma WriteChoiceWrites(meet: Meet, db: Db, c: Conflict, choice: R.Choice, now: int)
    ensures var (next, done) := R.WriteChoice(meet, db, c, choice, now);
            if done.Ok? then next.results != db.results else next == db
  {
    if c.unit.Some? {
      var unit, athlete, row := c.unit.value, R.ChosenAthlete(c, choice), R.ChosenRow(db, c, choice);
      WrittenRow(meet, db, unit, athlete, row, c.source);
      UpsertChanges(db.results, unit, athlete, AppliedRow(row, c.source));
      CorrectionChanges(meet, db, unit, athlete, R.CorrectionFrom(row, choice), now);
    }
  }

  lemma CorrectionChanges(meet: Meet, db: Db, unit: string, athlete: string, c: R.Correction, now: int)
    ensures var (next, done) := R.CorrectResult(meet, db, unit, athlete, c, now);
            if done.Ok? then next.results != db.results else next == db
  {
    if unit in meet.units {
      var fixed := R.CorrectedRow(meet.units[unit].family, c);
      if fixed.Ok? { UpsertChanges(db.results, unit, athlete, fixed.value); }
    }
  }
}
