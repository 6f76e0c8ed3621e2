// What a device is told of each op it sent: the reports of a replay agree with the ledger and
// with the trial as it is stored.
module Reports {
  import opened Basics
  import opened Tables
  import opened Checkouts
  import opened Capture
  import opened Replay
  import opened Protocol
  import opened CrashResend

  // The report says what the ledger says; a version stands only beside an applied op, and is the
  // stored trial's.
  ghost predicate Tells(db: Db, unit: string, op: Op, o: Outcome) {
    && o.op == op.id && op.id in db.ops
    && match db.ops[op.id].decision
       case Reconciled(why) => o.report == ReportReconciled(why) && o.version == 0
       case Rejected(reason) => o.report == ReportRejected(reason) && o.version == 0
       case Applied =>
         var cell := Cell(unit, op.input.athlete, op.input.attempt.trial);
         && (o.report.ReportApplied? || o.report.ReportDuplicate?)
         && o.version == if cell in db.trials then db.trials[cell].version else 0
  }

  // A decided op is answered from the ledger and changes nothing: as a duplicate if it was
  // applied, with an error if it was decided for another unit.
  lemma ResentReport(meet: Meet, db: Db, unit: string, from: Sender, op: Op)
    requires op.id in db.ops
    ensures var (next, answer) := ReplayOne(meet, db, unit, from, op);
            && next == db
            && (answer.Err? <==> db.ops[op.id].unit != unit)
            && (answer.Err? ==> answer.error == OpOfAnotherUnit)
            && (answer.Ok? ==> Tells(db, unit, op, answer.value) && !answer.value.report.ReportApplied?)
  {}

  // A newly decided op is answered as it was ledgered: as applied exactly when this replay wrote
  // its trial, and as a duplicate when the stored trial already was its own.
  lemma FirstReport(meet: Meet, db: Db, unit: string, from: Sender, op: Op)
    requires op.id !in db.ops
    ensures var (next, answer) := ReplayOne(meet, db, unit, from, op);
            && (answer.Err? ==> next == db)
            && (answer.Ok? ==> Tells(next, unit, op, answer.value))
            && (answer.Ok? ==> (answer.value.report.ReportApplied? <==> next.trials != db.trials))
  {
    match Decide(db, unit, from.stamp)
    case ApplyIt => AppliedReport(meet, db, unit, from, op);
    case RouteStartList =>
    case RouteStale =>
  }

  lemma AppliedReport(meet: Meet, db: Db, unit: string, from: Sender, op: Op)
    requires op.id !in db.ops
    ensures var (next, answer) := ApplyOp(meet, db, unit, from, op);
            && (answer.Err? ==> next == db)
            && (answer.Ok? ==> Tells(next, unit, op, answer.value))
            && (answer.Ok? ==> (answer.value.report.ReportApplied? <==> next.trials != db.trials))
  {
    var (saved, row) := SaveFieldAttempt(meet, db, unit, op.input);
    var cell := Cell(unit, op.input.athlete, op.input.attempt.trial);
    SaveFrame(meet, db, unit, op.input);
    FailedSaveChangesNothing(meet, db, unit, op.input);
    ConcludeFrame(saved, row, unit, from, op);
    SavedRow(meet, db, unit, op.input);
    ConcludeTells(saved, row, unit, from, op);
  }

  lemma SavedRow(meet: Meet, db: Db, unit: string, input: Input)
    ensures var (saved, row) := SaveFieldAttempt(meet, db, unit, input);
            var cell := Cell(unit, input.athlete, input.attempt.trial);
            && (row.Ok? ==> cell in saved.trials && saved.trials[cell] == row.value && saved.trials != db.trials)
            && (row.Err? && row.error.VersionConflict? ==> cell in saved.trials && row.error.current == saved.trials[cell])
  {
    var (saved, row) := SaveFieldAttempt(meet, db, unit, input);
    var cell := Cell(unit, input.athlete, input.attempt.trial);
    if row.Ok? { assert cell in db.trials ==> db.trials[cell].version != row.value.version; }
  }

  lemma ConcludeTells(saved: Db, row: Result<StoredTrial, CaptureError>, unit: string, from: Sender, op: Op)
    requires op.id !in saved.ops
    requires var cell := Cell(unit, op.input.athlete, op.input.attempt.trial);
             && (row.Ok? ==> cell in saved.trials && saved.trials[cell] == row.value)
             && (row.Err? && row.error.VersionConflict? ==> cell in saved.trials && row.error.current == saved.trials[cell])
    ensures var (next, answer) := Conclude(saved, row, unit, from, op);
            && (answer.Err? ==> row.Err? && next == saved)
            && (answer.Ok? ==> Tells(next, unit, op, answer.value))
            && (answer.Ok? ==> (answer.value.report.ReportApplied? <==> row.Ok?))
  {}

  // A batch that is not cut short is answered op by op, in the order it was sent.
  lemma {:induction false} BatchReports(meet: Meet, db: Db, unit: string, from: Sender, ops: seq<Op>)
    ensures var outcomes := ReplayAll(meet, db, unit, from, ops).1;
            outcomes.Ok? ==> |outcomes.value| == |ops| && forall i :: 0 <= i < |ops| ==> outcomes.value[i].op == ops[i].id
    decreases |ops|
  {
    if ops != [] {
      var (next, answer) := ReplayOne(meet, db, unit, from, ops[0]);
      if ops[0].id in db.ops { ResentReport(meet, db, unit, from, ops[0]); } else { FirstReport(meet, db, unit, from, ops[0]); }
      BatchReports(meet, next, unit, from, ops[1..]);
    }
  }
}
