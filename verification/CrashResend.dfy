// A device resends its whole batch until it is acknowledged. However often the server stops
// on the way, the tables end up as if one replay had run undisturbed, exactly when every
// mark that gets written is spelled canonically.
module CrashResend {
  import opened Basics
  import opened Text
  import opened Marks
  import opened FieldSeries
  import opened Tables
  import opened Checkouts
  import opened Capture
  import opened Replay

  // The server stops before op number `before`, or, when `during`, between that op's capture
  // transaction and its ledger write.
  datatype Stop = Stop(before: nat, during: bool)

  function RunUntil(meet: Meet, db: Db, unit: string, from: Sender, ops: seq<Op>, stop: Stop): Db
    decreases |ops|
  {
    if ops == [] then db
    else if stop.before == 0 then
      if stop.during then ReplayCut(meet, db, unit, from, ops[0]) else db
    else
      var (next, answer) := ReplayOne(meet, db, unit, from, ops[0]);
      if answer.Err? then next
      else RunUntil(meet, next, unit, from, ops[1..], stop.(before := stop.before - 1))
  }

  // The tables after a series of stopped replays of the same batch.
  function AfterStops(meet: Meet, db: Db, unit: string, from: Sender, ops: seq<Op>, stops: seq<Stop>): Db
    decreases |stops|
  {
    if stops == [] || !meet.IsUnit(unit, Horizontal) then db
    else AfterStops(meet, RunUntil(meet, db, unit, from, ops, stops[0]), unit, from, ops, stops[1..])
  }

  predicate CanonicalMark(op: Op) {
    var a := op.input.attempt;
    a.kind.Valid? && CentiMark(a.mark).Ok? ==> a.mark == Canonical(a.mark)
  }

  // The op is about to be written for the first time.
  predicate Writes(meet: Meet, db: Db, unit: string, from: Sender, op: Op) {
    && op.id !in db.ops && Decide(db, unit, from.stamp) == ApplyIt
    && SaveFieldAttempt(meet, db, unit, op.input).1.Ok?
  }

  predicate CutSafe(meet: Meet, db: Db, unit: string, from: Sender, op: Op) {
    Writes(meet, db, unit, from, op) ==> CanonicalMark(op)
  }

  // Every op an undisturbed replay would write carries a canonical mark.
  predicate ResendSafe(meet: Meet, db: Db, unit: string, from: Sender, ops: seq<Op>)
    decreases |ops|
  {
    ops == [] ||
    (CutSafe(meet, db, unit, from, ops[0]) &&
     var (next, answer) := ReplayOne(meet, db, unit, from, ops[0]);
     answer.Ok? ==> ResendSafe(meet, next, unit, from, ops[1..]))
  }

  // --- One op ---

  lemma StoredFromInput(meet: Meet, db: Db, unit: string, op: Op)
    requires SaveFieldAttempt(meet, db, unit, op.input).1.Ok?
    ensures var row := SaveFieldAttempt(meet, db, unit, op.input).1.value;
            && row.kind == op.input.attempt.kind && row.wind == op.input.attempt.wind
            && (SameAttempt(row, op) <==> CanonicalMark(op))
  {
    ValidatedIsNormalForm(op.input.attempt, meet.units[unit].windRelevant);
  }

  // Sending the same input again after it was written meets its own row.
  lemma ResentMeetsItself(meet: Meet, db: Db, unit: string, input: Input)
    requires SaveFieldAttempt(meet, db, unit, input).1.Ok?
    ensures var (saved, row) := SaveFieldAttempt(meet, db, unit, input);
            SaveFieldAttempt(meet, saved, unit, input) == (saved, Err(VersionConflict(row.value)))
  {}

  lemma SaveKeepsRouting(meet: Meet, db: Db, unit: string, input: Input, stamp: Stamp)
    ensures var saved := SaveFieldAttempt(meet, db, unit, input).0;
            saved.ops == db.ops && Decide(saved, unit, stamp) == Decide(db, unit, stamp)
  {}

  lemma CutThenResend(meet: Meet, db: Db, unit: string, from: Sender, op: Op)
    ensures var cut := ReplayCut(meet, db, unit, from, op);
            var resent, once := ReplayOne(meet, cut, unit, from, op), ReplayOne(meet, db, unit, from, op);
            && (CutSafe(meet, db, unit, from, op) ==> resent.0 == once.0 && resent.1.Ok? == once.1.Ok?)
            && (!CutSafe(meet, db, unit, from, op) ==>
                  once.1.Ok? && op.id in once.0.ops && once.0.ops[op.id].decision == Applied
                  && resent.1.Ok? && op.id in resent.0.ops && resent.0.ops[op.id].decision == Reconciled(Diverged)
                  && resent.0.ops[op.id].unit == unit)
  {
    if Writes(meet, db, unit, from, op) {
      StoredFromInput(meet, db, unit, op);
      ResentMeetsItself(meet, db, unit, op.input);
      SaveKeepsRouting(meet, db, unit, op.input, from.stamp);
    }
  }

  // --- The ledger ---

  // Entries are never changed or removed; op's own is added, for this unit.
  ghost predicate LedgerAdds(db: Db, next: Db, op: Op, unit: string) {
    && (forall id <- db.ops :: id in next.ops && next.ops[id] == db.ops[id])
    && op.id in next.ops && next.ops[op.id].unit == unit
  }

  lemma RecordAdds(db: Db, op: Op, unit: string, decision: Decision)
    requires op.id !in db.ops
    ensures LedgerAdds(db, Record(db, op, unit, decision), op, unit)
  {}

  lemma ConcludeLedger(db: Db, row: Result<StoredTrial, CaptureError>, unit: string, from: Sender, op: Op)
    requires op.id !in db.ops
    ensures var (next, answer) := Conclude(db, row, unit, from, op);
            if answer.Err? then next == db && row.Err? else LedgerAdds(db, next, op, unit)
  {
    if row.Err? && !row.error.VersionConflict? {
      var reason := ClassifyRejection(row.error);
      if reason.Some? { RecordAdds(db, op, unit, Rejected(reason.value)); }
    } else {
      RecordAdds(db, op, unit, Applied);
    }
  }

  lemma FailedSaveChangesNothing(meet: Meet, db: Db, unit: string, input: Input)
    ensures SaveFieldAttempt(meet, db, unit, input).1.Err? ==> SaveFieldAttempt(meet, db, unit, input).0 == db
  {}

  lemma ApplyLedger(meet: Meet, db: Db, unit: string, from: Sender, op: Op)
    requires op.id !in db.ops
    ensures var (next, answer) := ApplyOp(meet, db, unit, from, op);
            if answer.Err? then next == db else LedgerAdds(db, next, op, unit)
  {
    SaveKeepsRouting(meet, db, unit, op.input, from.stamp);
    FailedSaveChangesNothing(meet, db, unit, op.input);
    var (saved, row) := SaveFieldAttempt(meet, db, unit, op.input);
    ConcludeLedger(saved, row, unit, from, op);
    assert ApplyOp(meet, db, unit, from, op) == Conclude(saved, row, unit, from, op);
  }

  lemma RouteLedger(db: Db, unit: string, from: Sender, op: Op, why: ReconcileReason)
    requires op.id !in db.ops
    ensures LedgerAdds(db, Route(db, unit, from, op, why).0, op, unit)
  {}

  lemma ReplayLedger(meet: Meet, db: Db, unit: string, from: Sender, op: Op)
    ensures var (next, answer) := ReplayOne(meet, db, unit, from, op);
            && (if answer.Err? then next == db else LedgerAdds(db, next, op, unit))
            && (op.id in db.ops && db.ops[op.id].unit == unit ==> next == db && answer.Ok?)
  {
    if op.id !in db.ops {
      match Decide(db, unit, from.stamp)
      case ApplyIt => ApplyLedger(meet, db, unit, from, op);
      case RouteStartList => RouteLedger(db, unit, from, op, StartListChange);
      case RouteStale => RouteLedger(db, unit, from, op, StaleCheckout);
    }
  }

  lemma {:induction false} BatchLedger(meet: Meet, db: Db, unit: string, from: Sender, ops: seq<Op>)
    ensures var last := ReplayAll(meet, db, unit, from, ops).0;
            forall id <- db.ops :: id in last.ops && last.ops[id] == db.ops[id]
    decreases |ops|
  {
    if ops != [] {
      ReplayLedger(meet, db, unit, from, ops[0]);
      BatchLedger(meet, ReplayOne(meet, db, unit, from, ops[0]).0, unit, from, ops[1..]);
    }
  }

  lemma {:induction false} StoppedLedger(meet: Meet, db: Db, unit: string, from: Sender, ops: seq<Op>, stop: Stop)
    ensures var cut := RunUntil(meet, db, unit, from, ops, stop);
            forall id <- db.ops :: id in cut.ops && cut.ops[id] == db.ops[id]
    decreases |ops|
  {
    if ops != [] {
      if stop.before == 0 {
        SaveKeepsRouting(meet, db, unit, ops[0].input, from.stamp);
      } else {
        ReplayLedger(meet, db, unit, from, ops[0]);
        StoppedLedger(meet, ReplayOne(meet, db, unit, from, ops[0]).0, unit, from, ops[1..],
                      stop.(before := stop.before - 1));
      }
    }
  }

  // --- A whole batch ---

  // Resending after one stop converges, and stays safe for further stops.
  lemma {:induction false} ResumeAfterStop(meet: Meet, db: Db, unit: string, from: Sender, ops: seq<Op>, stop: Stop)
    requires ResendSafe(meet, db, unit, from, ops)
    ensures var cut := RunUntil(meet, db, unit, from, ops, stop);
            && ReplayAll(meet, cut, unit, from, ops).0 == ReplayAll(meet, db, unit, from, ops).0
            && ResendSafe(meet, cut, unit, from, ops)
    decreases |ops|
  {
    if ops != [] {
      var op, rest := ops[0], ops[1..];
      var (next, answer) := ReplayOne(meet, db, unit, from, op);
      ReplayLedger(meet, db, unit, from, op);
      if stop.before == 0 {
        if stop.during {
          CutThenResend(meet, db, unit, from, op);
          CutIsWritten(meet, db, unit, from, op);
        }
      } else if answer.Ok? {
        var earlier := stop.(before := stop.before - 1);
        ResumeAfterStop(meet, next, unit, from, rest, earlier);
        StoppedLedger(meet, next, unit, from, rest, earlier);
        var cut := RunUntil(meet, next, unit, from, rest, earlier);
        ReplayLedger(meet, cut, unit, from, op);
      }
    }
  }

  lemma CutIsWritten(meet: Meet, db: Db, unit: string, from: Sender, op: Op)
    requires CutSafe(meet, db, unit, from, op)
    ensures CutSafe(meet, ReplayCut(meet, db, unit, from, op), unit, from, op)
  {}

  // Stopping right after an unsafe write leaves a ledger that disagrees for good.
  lemma {:induction false} UnsafeStop(meet: Meet, db: Db, unit: string, from: Sender, ops: seq<Op>) returns (stop: Stop)
    requires !ResendSafe(meet, db, unit, from, ops)
    ensures ReplayAll(meet, RunUntil(meet, db, unit, from, ops, stop), unit, from, ops).0.ops
            != ReplayAll(meet, db, unit, from, ops).0.ops
    decreases |ops|
  {
    var op, rest := ops[0], ops[1..];
    var next := ReplayOne(meet, db, unit, from, op).0;
    ReplayLedger(meet, db, unit, from, op);
    if !CutSafe(meet, db, unit, from, op) {
      stop := Stop(0, true);
      var cut := ReplayCut(meet, db, unit, from, op);
      CutThenResend(meet, db, unit, from, op);
      BatchLedger(meet, next, unit, from, rest);
      BatchLedger(meet, ReplayOne(meet, cut, unit, from, op).0, unit, from, rest);
      assert ReplayAll(meet, db, unit, from, ops).0.ops[op.id].decision == Applied;
    } else {
      var later := UnsafeStop(meet, next, unit, from, rest);
      stop := later.(before := later.before + 1);
      StoppedLedger(meet, next, unit, from, rest, later);
      ReplayLedger(meet, RunUntil(meet, next, unit, from, rest, later), unit, from, op);
    }
  }

  lemma {:induction false} StopsThenResend(meet: Meet, db: Db, unit: string, from: Sender, ops: seq<Op>, stops: seq<Stop>)
    requires ResendSafe(meet, db, unit, from, ops)
    ensures Converges(meet, db, unit, from, ops, stops)
    decreases |stops|
  {
    if stops != [] && meet.IsUnit(unit, Horizontal) {
      ResumeAfterStop(meet, db, unit, from, ops, stops[0]);
      StopsThenResend(meet, RunUntil(meet, db, unit, from, ops, stops[0]), unit, from, ops, stops[1..]);
    }
  }

  ghost predicate Converges(meet: Meet, db: Db, unit: string, from: Sender, ops: seq<Op>, stops: seq<Stop>) {
    ReplayBatch(meet, AfterStops(meet, db, unit, from, ops, stops), unit, from, ops).0
    == ReplayBatch(meet, db, unit, from, ops).0
  }

  // Every schedule of stops followed by a full resend leaves all tables as one undisturbed
  // replay does, if and only if each op that replay writes carries a canonical mark.
  lemma CrashResendExactly(meet: Meet, db: Db, unit: string, from: Sender, ops: seq<Op>)
    requires meet.IsUnit(unit, Horizontal)
    ensures (forall stops: seq<Stop> :: Converges(meet, db, unit, from, ops, stops))
            <==> ResendSafe(meet, db, unit, from, ops)
  {
    if ResendSafe(meet, db, unit, from, ops) {
      forall stops: seq<Stop> ensures Converges(meet, db, unit, from, ops, stops) {
        StopsThenResend(meet, db, unit, from, ops, stops);
      }
    } else {
      var stop := UnsafeStop(meet, db, unit, from, ops);
      OneStop(meet, db, unit, from, ops, stop);
      assert !Converges(meet, db, unit, from, ops, [stop]);
    }
  }

  lemma OneStop(meet: Meet, db: Db, unit: string, from: Sender, ops: seq<Op>, stop: Stop)
    requires meet.IsUnit(unit, Horizontal)
    ensures AfterStops(meet, db, unit, from, ops, [stop]) == RunUntil(meet, db, unit, from, ops, stop)
  {
    assert [stop][1..] == [];
  }

  lemma {:induction false} CanonicalIsSafe(meet: Meet, db: Db, unit: string, from: Sender, ops: seq<Op>)
    requires forall op <- ops :: CanonicalMark(op)
    ensures ResendSafe(meet, db, unit, from, ops)
    decreases |ops|
  {
    if ops != [] {
      CanonicalIsSafe(meet, ReplayOne(meet, db, unit, from, ops[0]).0, unit, from, ops[1..]);
    }
  }

  // Canonical batches survive every schedule of stops.
  lemma CrashResend(meet: Meet, db: Db, unit: string, from: Sender, ops: seq<Op>, stops: seq<Stop>)
    requires forall op <- ops :: CanonicalMark(op)
    ensures Converges(meet, db, unit, from, ops, stops)
  {
    CanonicalIsSafe(meet, db, unit, from, ops);
    StopsThenResend(meet, db, unit, from, ops, stops);
  }

  // --- A mark with one decimal ---

  const PIT: Meet := Meet(map["lj" := UnitInfo(Horizontal, false, 3)], ["ann"], {}, map[], map[], NoPoints, true)

  const JUDGE: Sender := Sender("judge", "tablet", Stamp(0, 1, 0))

  function FirstTrial(mark: string): Op { Op("op-1", Input("ann", Attempt(1, Valid, mark, None), 0)) }

  const JUMP := Cell("lj", "ann", 1)

  // What the ledger says of the op.
  predicate Ledgered(db: Db, decision: Decision) { "op-1" in db.ops && db.ops["op-1"].decision == decision }

  // The server stops between the trial and the ledger; the resent op is then queued as diverged
  // from the very trial it wrote, where an undisturbed replay records it as applied.
  lemma LooseMarkDiverges(mark: string)
    requires CentiMark(mark).Ok? && CentiMark(mark).value > 0 && mark != Canonical(mark)
    ensures var locked, batch := CheckoutUnit(PIT, EMPTY_DB, "judge", "lj", "tablet").0, [FirstTrial(mark)];
            var once := ReplayBatch(PIT, locked, "lj", JUDGE, batch).0;
            var cut := AfterStops(PIT, locked, "lj", JUDGE, batch, [Stop(0, true)]);
            var resent := ReplayBatch(PIT, cut, "lj", JUDGE, batch).0;
            && Ledgered(once, Applied) && once.items == []
            && Ledgered(resent, Reconciled(Diverged)) && |resent.items| == 1
            && resent.trials == once.trials == map[JUMP := StoredTrial(Valid, Canonical(mark), None, 1)]
  {
    var locked, op := CheckoutUnit(PIT, EMPTY_DB, "judge", "lj", "tablet").0, FirstTrial(mark);
    var cut := ReplayCut(PIT, locked, "lj", JUDGE, op);
    FirstSave(mark);
    CutThenResend(PIT, locked, "lj", JUDGE, op);
    OneStop(PIT, locked, "lj", JUDGE, [op], Stop(0, true));
    OneOp(PIT, locked, op);
    OneOp(PIT, cut, op);
  }

  lemma FirstSave(mark: string)
    requires CentiMark(mark).Ok? && CentiMark(mark).value > 0
    ensures var locked, op := CheckoutUnit(PIT, EMPTY_DB, "judge", "lj", "tablet").0, FirstTrial(mark);
            var (saved, row) := SaveFieldAttempt(PIT, locked, "lj", op.input);
            && locked.items == [] && locked.ops == map[] && Decide(locked, "lj", JUDGE.stamp) == ApplyIt
            && row == Ok(StoredTrial(Valid, Canonical(mark), None, 1)) && saved.trials == map[JUMP := row.value]
            && saved.items == [] && saved.ops == map[]
  {}

  // Seven metres ten, typed as 7.1, is such a mark.
  lemma OneDecimalIsLoose()
    ensures FormatTenths(710) == "7.1" && CentiMark(FormatTenths(710)) == Ok(710)
    ensures Canonical(FormatTenths(710)) == "7.10" != FormatTenths(710)
  {
    ParseTenths(71);
    SevenTen();
  }

  lemma SevenTen()
    ensures FormatTenths(710) == "7.1" && FormatCentiMark(710) == "7.10"
  {
    assert Decimal(7) == "7";
    assert Decimal(7) + "." + [DigitChar(1)] == "7.1" && Decimal(7) + "." + TwoDigits(10) == "7.10";
  }

  lemma OneOp(meet: Meet, db: Db, op: Op)
    requires meet.IsUnit("lj", Horizontal)
    ensures ReplayBatch(meet, db, "lj", JUDGE, [op]).0 == ReplayOne(meet, db, "lj", JUDGE, op).0
  {
    assert [op][1..] == [];
    assert ReplayAll(meet, ReplayOne(meet, db, "lj", JUDGE, op).0, "lj", JUDGE, []).0 == ReplayOne(meet, db, "lj", JUDGE, op).0;
  }
}
