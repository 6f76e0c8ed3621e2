// What the ledger says of a capture that reached the server under a live lock, decided by
// conditions its sender can check beforehand.
module Rejections {
  import opened Basics
  import opened Marks
  import opened FieldSeries
  import opened Tables
  import opened Checkouts
  import opened Capture
  import opened Replay
  import opened Protocol
  import CR = CrashResend

  // The trial itself is in order: known kind, positive readable mark, wind only where it counts,
  // within the unit's trials.
  predicate Acceptable(meet: Meet, unit: string, a: Attempt)
    requires unit in meet.units
  {
    && 1 <= a.trial <= meet.units[unit].trials && (a.wind.Some? ==> meet.units[unit].windRelevant)
    && match a.kind
       case Valid => CentiMark(a.mark).Ok? && CentiMark(a.mark).value > 0
       case Unknown(_) => false
       case _ => a.mark == ""
  }

  // The trial is stored in the version the sender saw, or not stored and taken for new.
  predicate UpToDate(db: Db, cell: Cell, expected: int) {
    if expected > 0 then cell in db.trials && db.trials[cell].version == expected else cell !in db.trials
  }

  // A re-capture of a trial the server never stored.
  predicate Unseen(db: Db, cell: Cell, expected: int) { expected > 0 && cell !in db.trials }

  // The athlete's series with this trial in it.
  function SeriesWith(meet: Meet, db: Db, unit: string, input: Input): seq<Attempt>
    requires unit in meet.units && Acceptable(meet, unit, input.attempt)
  {
    SeriesAfter(meet, db, unit, input, Stored(Validated(input.attempt, meet.units[unit].windRelevant).value, 0))
  }

  // There are categories and points for the athlete's marks here, or the series has no mark.
  predicate Rated(meet: Meet, db: Db, unit: string, input: Input)
    requires unit in meet.units && Acceptable(meet, unit, input.attempt)
  {
    Best(SeriesWith(meet, db, unit, input)).Some? ==>
      meet.categories && meet.HasColumn(unit, input.athlete, NoTiming)
  }

  lemma {:induction false} VersionIrrelevant(trials: map<Cell, StoredTrial>, cell: Cell, a: Attempt, v: int, w: int,
                                             unit: string, athlete: string, n: nat)
    ensures SeriesUpTo(trials[cell := Stored(a, v)], unit, athlete, n)
            == SeriesUpTo(trials[cell := Stored(a, w)], unit, athlete, n)
  {
    if n > 0 { VersionIrrelevant(trials, cell, a, v, w, unit, athlete, n - 1); }
  }

  lemma RatedExactly(meet: Meet, db: Db, unit: string, input: Input, version: int)
    requires unit in meet.units && Acceptable(meet, unit, input.attempt)
    ensures var row := Stored(Validated(input.attempt, meet.units[unit].windRelevant).value, version);
            Ratable(meet, unit, input.athlete, SeriesAfter(meet, db, unit, input, row)) <==> Rated(meet, db, unit, input)
  {
    var a := Validated(input.attempt, meet.units[unit].windRelevant).value;
    VersionIrrelevant(db.trials, CellOf(unit, input), a, version, 0, unit, input.athlete, SeriesLength(meet, unit));
    BestReadable(SeriesWith(meet, db, unit, input));
  }

  // What the capture answers, condition by condition.
  lemma SaveAnswers(meet: Meet, db: Db, unit: string, input: Input)
    requires meet.IsUnit(unit, Horizontal)
    ensures var answer, cell := SaveFieldAttempt(meet, db, unit, input).1, CellOf(unit, input);
            if input.athlete !in meet.roster then answer == Err(NotRegistered)
            else if !Acceptable(meet, unit, input.attempt) then answer == Err(BadValue)
            else if db.Announced(unit) then answer == Err(Announced)
            else if Unseen(db, cell, input.expected) then answer == Err(TrialMissing)
            else if !UpToDate(db, cell, input.expected) then
              cell in db.trials && answer == Err(VersionConflict(db.trials[cell]))
            else if !Rated(meet, db, unit, input) then answer == Err(Unrated)
            else answer.Ok?
  {
    var cell := CellOf(unit, input);
    var row := SaveTrialAnswer(meet, db, unit, input);
    if row.Some? { RatedExactly(meet, db, unit, input, row.value.version); }
  }

  // The row a capture that passes every other check would store.
  function SaveTrialAnswer(meet: Meet, db: Db, unit: string, input: Input): Option<StoredTrial>
    requires unit in meet.units
  {
    var a := Validated(input.attempt, meet.units[unit].windRelevant);
    if a.None? || a.value.trial > meet.units[unit].trials then None else
    var row := SaveTrial(db.trials, CellOf(unit, input), a.value, input.expected);
    if row.Ok? then Some(row.value) else None
  }

  // What replay records for an undecided op, given the capture's answer.
  lemma AnswerRecorded(db: Db, row: Result<StoredTrial, CaptureError>, unit: string, from: Sender, op: Op)
    requires op.id !in db.ops
    ensures var (next, answer) := Conclude(db, row, unit, from, op);
            if row.Err? && !row.error.VersionConflict? && ClassifyRejection(row.error).None? then answer.Err? && next == db
            else
              && answer.Ok? && op.id in next.ops
              && next.ops[op.id].decision ==
                   (if row.Ok? then Applied
                    else if !row.error.VersionConflict? then Rejected(ClassifyRejection(row.error).value)
                    else if SameAttempt(row.error.current, op) then Applied
                    else Reconciled(Diverged))
  {}

  // For an undecided op under an applicable stamp: one condition per ledger entry, and one for the
  // op that stays undecided because its series cannot be rated. A registered athlete is reported
  // unknown exactly when an acceptable re-capture names a trial that was never stored.
  lemma DecidedExactly(meet: Meet, db: Db, unit: string, from: Sender, op: Op)
    requires op.id !in db.ops && Decide(db, unit, from.stamp) == ApplyIt && meet.IsUnit(unit, Horizontal)
    ensures var (next, answer) := ReplayOne(meet, db, unit, from, op);
            var a, cell, expected := op.input.attempt, CellOf(unit, op.input), op.input.expected;
            var known, fine := op.input.athlete in meet.roster, Acceptable(meet, unit, a) && !db.Announced(unit);
            var current := UpToDate(db, cell, expected);
            var landed := cell in db.trials && SameAttempt(db.trials[cell], op);
            && (answer.Err? <==> known && fine && current && !Rated(meet, db, unit, op.input))
            && (answer.Err? ==> next == db)
            && (answer.Ok? ==>
                  && op.id in next.ops
                  && var decision := next.ops[op.id].decision;
                     && (decision == Rejected(UnknownAthlete) <==> !known || (fine && Unseen(db, cell, expected)))
                     && (decision == Rejected(InvalidMark) <==> known && !Acceptable(meet, unit, a))
                     && (decision == Rejected(AlreadyAnnounced) <==> known && Acceptable(meet, unit, a) && db.Announced(unit))
                     && (decision == Applied <==> known && fine && (current || (landed && !Unseen(db, cell, expected))))
                     && (decision == Reconciled(Diverged) <==>
                           known && fine && !current && !Unseen(db, cell, expected) && !landed))
  {
    var (saved, row) := SaveFieldAttempt(meet, db, unit, op.input);
    SaveAnswers(meet, db, unit, op.input);
    SaveLeavesLedger(meet, db, unit, op.input);
    var inOrder, cell := Acceptable(meet, unit, op.input.attempt), CellOf(unit, op.input);
    Verdict(db, saved, row, unit, from, op, op.input.athlete in meet.roster, inOrder, Unseen(db, cell, op.input.expected),
            UpToDate(db, cell, op.input.expected), inOrder && Rated(meet, db, unit, op.input));
  }

  // The same conditions, taken as they are.
  lemma Verdict(db: Db, saved: Db, row: Result<StoredTrial, CaptureError>, unit: string, from: Sender, op: Op,
                known: bool, inOrder: bool, unseen: bool, current: bool, rated: bool)
    requires op.id !in db.ops && saved.ops == db.ops && (row.Err? ==> saved == db) && !(unseen && current)
    requires var cell := CellOf(unit, op.input);
             && (unseen ==> cell !in db.trials)
             && if !known then row == Err(NotRegistered)
                else if !inOrder then row == Err(BadValue)
                else if db.Announced(unit) then row == Err(Announced)
                else if unseen then row == Err(TrialMissing)
                else if !current then cell in db.trials && row == Err(VersionConflict(db.trials[cell]))
                else if !rated then row == Err(Unrated)
                else row.Ok?
    ensures var (next, answer) := Conclude(saved, row, unit, from, op);
            var fine, cell := inOrder && !db.Announced(unit), CellOf(unit, op.input);
            var landed := cell in db.trials && SameAttempt(db.trials[cell], op);
            && (answer.Err? <==> known && fine && current && !rated)
            && (answer.Err? ==> next == db)
            && (answer.Ok? ==>
                  && op.id in next.ops
                  && var decision := next.ops[op.id].decision;
                     && (decision == Rejected(UnknownAthlete) <==> !known || (fine && unseen))
                     && (decision == Rejected(InvalidMark) <==> known && !inOrder)
                     && (decision == Rejected(AlreadyAnnounced) <==> known && inOrder && db.Announced(unit))
                     && (decision == Applied <==> known && fine && (current || (landed && !unseen)))
                     && (decision == Reconciled(Diverged) <==> known && fine && !current && !unseen && !landed))
  {
    AnswerRecorded(saved, row, unit, from, op);
  }

  lemma SaveLeavesLedger(meet: Meet, db: Db, unit: string, input: Input)
    ensures var (saved, row) := SaveFieldAttempt(meet, db, unit, input);
            saved.ops == db.ops && (row.Err? ==> saved == db)
  {
    SaveFrame(meet, db, unit, input);
    CR.FailedSaveChangesNothing(meet, db, unit, input);
  }

  // --- A mark that cannot be rated ---

  lemma {:induction false} WrittenInSeries(trials: map<Cell, StoredTrial>, unit: string, athlete: string, k: nat, n: nat)
    requires 1 <= k <= n && Cell(unit, athlete, k) in trials
    ensures var row := trials[Cell(unit, athlete, k)];
            Attempt(k, row.kind, row.mark, row.wind) in SeriesUpTo(trials, unit, athlete, n)
  {
    if k < n { WrittenInSeries(trials, unit, athlete, k, n - 1); }
  }

  // A series with a valid trial in it has a best mark.
  lemma ValidTrialCounts(meet: Meet, db: Db, unit: string, input: Input)
    requires unit in meet.units && Acceptable(meet, unit, input.attempt) && input.attempt.kind.Valid?
    ensures Best(SeriesWith(meet, db, unit, input)).Some?
  {
    var a := Validated(input.attempt, meet.units[unit].windRelevant).value;
    var trials := db.trials[CellOf(unit, input) := Stored(a, 0)];
    ValidatedIsNormalForm(input.attempt, meet.units[unit].windRelevant);
    WrittenInSeries(trials, unit, input.athlete, input.attempt.trial, SeriesLength(meet, unit));
    ValidMarksMembers(SeriesWith(meet, db, unit, input));
    BestIsMaximum(SeriesWith(meet, db, unit, input));
    assert CentiMark(a.mark).value in ValidMarks(SeriesWith(meet, db, unit, input));
  }

  // Rating aside, the op would be written: it is undecided, under a live stamp, in order, and the
  // trial is as the device saw it.
  predicate LandsAt(meet: Meet, db: Db, unit: string, from: Sender, op: Op)
    requires meet.IsUnit(unit, Horizontal)
  {
    && op.id !in db.ops && Decide(db, unit, from.stamp) == ApplyIt && !db.Announced(unit)
    && op.input.athlete in meet.roster && Acceptable(meet, unit, op.input.attempt)
    && UpToDate(db, CellOf(unit, op.input), op.input.expected)
  }

  // Where the meet gives points and has none for this athlete here, or the server does not know its
  // categories, a valid trial that would land stays undecided, and so does everything queued behind
  // it.
  lemma UnratedBlocks(meet: Meet, db: Db, unit: string, from: Sender, ops: seq<Op>)
    requires meet.IsUnit(unit, Horizontal) && ops != [] && !(meet.categories && meet.HasColumn(unit, ops[0].input.athlete, NoTiming))
    requires LandsAt(meet, db, unit, from, ops[0]) && ops[0].input.attempt.kind.Valid?
    ensures ReplayBatch(meet, db, unit, from, ops) == (db, Err(CaptureFault(Unrated)))
  {
    UnratedAnswer(meet, db, unit, from, ops[0]);
  }

  lemma UnratedAnswer(meet: Meet, db: Db, unit: string, from: Sender, op: Op)
    requires meet.IsUnit(unit, Horizontal) && !(meet.categories && meet.HasColumn(unit, op.input.athlete, NoTiming))
    requires LandsAt(meet, db, unit, from, op) && op.input.attempt.kind.Valid?
    ensures ReplayOne(meet, db, unit, from, op) == (db, Err(CaptureFault(Unrated)))
  {
    UnratedSave(meet, db, unit, from, op);
  }

  lemma UnratedSave(meet: Meet, db: Db, unit: string, from: Sender, op: Op)
    requires meet.IsUnit(unit, Horizontal) && !(meet.categories && meet.HasColumn(unit, op.input.athlete, NoTiming))
    requires LandsAt(meet, db, unit, from, op) && op.input.attempt.kind.Valid?
    ensures SaveFieldAttempt(meet, db, unit, op.input) == (db, Err(Unrated))
  {
    ValidTrialCounts(meet, db, unit, op.input);
    SaveAnswers(meet, db, unit, op.input);
    CR.FailedSaveChangesNothing(meet, db, unit, op.input);
  }

  // --- A registered athlete reported unknown ---

  const PIT: Meet := Meet(map["lj" := UnitInfo(Horizontal, false, 3)], ["ann"], {}, map[], map[], NoPoints, true)

  const SECOND_FOUL: Op := Op("op-1", Input("ann", Attempt(1, Foul, "", None), 1))

  const OFFICIAL: Sender := Sender("judge", "tablet", Stamp(0, 1, 0))

  // A judge takes the lock and re-captures a trial whose first capture never arrived.
  lemma RegisteredAthleteReportedUnknown()
    ensures var run := [TakeLock("judge", "lj", "tablet"), ReplayOp("lj", OFFICIAL, SECOND_FOUL)];
            var final := Exec(PIT, EMPTY_DB, run);
            && PIT.Valid() && "ann" in PIT.roster
            && "op-1" in final.ops && final.ops["op-1"].decision == Rejected(UnknownAthlete)
  {
    var take, replay := TakeLock("judge", "lj", "tablet"), ReplayOp("lj", OFFICIAL, SECOND_FOUL);
    TwoSteps(PIT, take, replay);
    var locked := Apply(PIT, EMPTY_DB, take);
    assert Decide(locked, "lj", OFFICIAL.stamp) == ApplyIt;
    DecidedExactly(PIT, locked, "lj", OFFICIAL, SECOND_FOUL);
  }

  lemma TwoSteps(meet: Meet, s: Step, t: Step)
    ensures Exec(meet, EMPTY_DB, [s, t]) == Apply(meet, Apply(meet, EMPTY_DB, s), t)
  {
    assert [s, t][..1] == [s] && [s][..0] == [];
    assert Exec(meet, EMPTY_DB, [s]) == Apply(meet, EMPTY_DB, s);
  }
}
