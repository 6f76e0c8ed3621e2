// Offline replay: an ordered batch of queued captures, each decided once and recorded in the
// op ledger; captures that cannot be applied go to the reconciliation queue.
module Replay {
  import opened Basics
  import opened FieldSeries
  import opened Tables
  import opened Checkouts
  import opened Capture

  // One queued capture, keyed by the identifier its device generated.
  datatype Op = Op(id: string, input: Input)

  // Who replays, from which device, under which checkout stamp.
  datatype Sender = Sender(account: string, device: string, stamp: Stamp)

  datatype Report = ReportApplied | ReportDuplicate | ReportReconciled(why: ReconcileReason)
                  | ReportRejected(reason: RejectReason)

  datatype Outcome = Outcome(op: string, report: Report, version: int)

  datatype ReplayError = OpOfAnotherUnit | NotReplayable | CaptureFault(fault: CaptureError)

  type Answer = Result<Outcome, ReplayError>

  function Record(db: Db, op: Op, unit: string, decision: Decision): Db {
    if op.id in db.ops then db else db.(ops := db.ops[op.id := OpRecord(unit, decision)])
  }

  function ClassifyRejection(e: CaptureError): Option<RejectReason> {
    match e
    case BadValue => Some(InvalidMark)
    case NoSuchUnit => Some(UnknownAthlete)
    case NotRegistered => Some(UnknownAthlete)
    case TrialMissing => Some(UnknownAthlete)
    case Announced => Some(AlreadyAnnounced)
    case _ => None
  }

  // The stored trial already is what the op would write.
  predicate SameAttempt(stored: StoredTrial, op: Op) {
    var a := op.input.attempt;
    stored.kind == a.kind && stored.mark == a.mark && stored.wind == a.wind
  }

  function PayloadOf(op: Op): Payload {
    var a := op.input.attempt;
    Payload(op.input.athlete, a.trial, a.kind, a.mark, a.wind)
  }

  // The queue item and the ledger entry are written together.
  function Route(db: Db, unit: string, from: Sender, op: Op, why: ReconcileReason): (Db, Answer) {
    var item := Item(op.id, unit, why, PayloadOf(op), from.account, from.device,
                     from.stamp.generation, from.stamp.startList, Pending, "");
    (Record(db.(items := db.items + [item]), op, unit, Reconciled(why)),
     Ok(Outcome(op.id, ReportReconciled(why), 0)))
  }

  // A previously decided op is acknowledged, never run again.
  function Acknowledge(db: Db, unit: string, op: Op): Answer
    requires op.id in db.ops
  {
    var rec := db.ops[op.id];
    if rec.unit != unit then Err(OpOfAnotherUnit) else
    match rec.decision
    case Reconciled(why) => Ok(Outcome(op.id, ReportReconciled(why), 0))
    case Rejected(reason) => Ok(Outcome(op.id, ReportRejected(reason), 0))
    case Applied => Ok(Outcome(op.id, ReportDuplicate, CurrentVersion(db.trials, CellOf(unit, op.input))))
  }

  // What the capture transaction's answer means for the op; a separate write follows it.
  function Conclude(db: Db, row: Result<StoredTrial, CaptureError>, unit: string, from: Sender, op: Op): (Db, Answer) {
    if row.Ok? then
      (Record(db, op, unit, Applied), Ok(Outcome(op.id, ReportApplied, row.value.version)))
    else if row.error.VersionConflict? then
      if SameAttempt(row.error.current, op) then
        (Record(db, op, unit, Applied), Ok(Outcome(op.id, ReportDuplicate, row.error.current.version)))
      else Route(db, unit, from, op, Diverged)
    else
      var reason := ClassifyRejection(row.error);
      if reason.None? then (db, Err(CaptureFault(row.error)))
      else (Record(db, op, unit, Rejected(reason.value)), Ok(Outcome(op.id, ReportRejected(reason.value), 0)))
  }

  function ApplyOp(meet: Meet, db: Db, unit: string, from: Sender, op: Op): (Db, Answer) {
    var (saved, row) := SaveFieldAttempt(meet, db, unit, op.input);
    Conclude(saved, row, unit, from, op)
  }

  function ReplayOne(meet: Meet, db: Db, unit: string, from: Sender, op: Op): (Db, Answer) {
    if op.id in db.ops then (db, Acknowledge(db, unit, op)) else
    match Decide(db, unit, from.stamp)
    case ApplyIt => ApplyOp(meet, db, unit, from, op)
    case RouteStartList => Route(db, unit, from, op, StartListChange)
    case RouteStale => Route(db, unit, from, op, StaleCheckout)
  }

  // The server stops after the capture transaction, before the ledger write. Routing is a
  // single transaction, so a stop there leaves either nothing or everything.
  function ReplayCut(meet: Meet, db: Db, unit: string, from: Sender, op: Op): Db {
    if op.id !in db.ops && Decide(db, unit, from.stamp) == ApplyIt
    then SaveFieldAttempt(meet, db, unit, op.input).0
    else db
  }

  // Ops are decided in order until one fails outright.
  function ReplayAll(meet: Meet, db: Db, unit: string, from: Sender, ops: seq<Op>)
    : (Db, Result<seq<Outcome>, ReplayError>)
    decreases |ops|
  {
    if ops == [] then (db, Ok([])) else
    var (next, answer) := ReplayOne(meet, db, unit, from, ops[0]);
    if answer.Err? then (next, Err(answer.error)) else
    var (last, rest) := ReplayAll(meet, next, unit, from, ops[1..]);
    (last, if rest.Err? then rest else Ok([answer.value] + rest.value))
  }

  function ReplayBatch(meet: Meet, db: Db, unit: string, from: Sender, ops: seq<Op>)
    : (Db, Result<seq<Outcome>, ReplayError>)
  {
    if !meet.IsUnit(unit, Horizontal) then (db, Err(NotReplayable))
    else ReplayAll(meet, db, unit, from, ops)
  }

  // --- The office decides queued captures ---

  datatype ResolveError = NoSuchItem | NotPending | ApplyFailed(fault: CaptureError)

  function ItemInput(db: Db, item: Item): Input {
    var p := item.payload;
    Input(p.athlete, Attempt(p.trial, p.kind, p.mark, p.wind),
          CurrentVersion(db.trials, Cell(item.unit, p.athlete, p.trial)))
  }

  // Applying force-writes over the current trial; the status change is a second transaction.
  function ResolveCut(meet: Meet, db: Db, index: nat, apply: bool): (Db, Result<(), ResolveError>) {
    if index >= |db.items| then (db, Err(NoSuchItem)) else
    var item := db.items[index];
    if !item.status.Pending? then (db, Err(NotPending))
    else if !apply then (db, Ok(()))
    else
      var (saved, row) := SaveFieldAttempt(meet, db, item.unit, ItemInput(db, item));
      (saved, if row.Ok? then Ok(()) else Err(ApplyFailed(row.error)))
  }

  function Resolve(meet: Meet, db: Db, index: nat, apply: bool, account: string): (Db, Result<(), ResolveError>) {
    var (saved, done) := ResolveCut(meet, db, index, apply);
    if done.Err? || index >= |saved.items| then (saved, done) else
    var item := saved.items[index].(status := if apply then ItemApplied else ItemDiscarded, resolvedBy := account);
    (saved.(items := saved.items[index := item]), Ok(()))
  }
}
