// Trials are versioned: a capture that expects a version consumes it. Over any run, whatever
// is resent, interrupted, overridden or applied by the office in between, one op id causes
// at most one trial write.
module AtMostOnce {
  import opened Basics
  import opened Tables
  import opened Capture
  import opened Replay
  import opened Protocol
  import CR = CrashResend

  // --- One step ---

  lemma SaveWritesOneCell(meet: Meet, db: Db, unit: string, input: Input)
    ensures var (next, row) := SaveFieldAttempt(meet, db, unit, input);
            var cell := CellOf(unit, input);
            if row.Err? then next == db
            else && next.trials == db.trials[cell := row.value]
                 && row.value.version > input.expected
                 && (cell in db.trials ==> row.value.version > db.trials[cell].version)
                 && !Spent(db, cell, input.expected)
  {}

  // The version a capture expects has already been used up.
  predicate Spent(db: Db, cell: Cell, expected: int) {
    cell in db.trials && db.trials[cell].version > expected
  }

  lemma StepTrials(meet: Meet, db: Db, s: Step)
    ensures Apply(meet, db, s).trials == AfterWrite(meet, db, TrialWrite(meet, db, s)).trials
  {
    if IsLockStep(s) {
      LockStepFrame(meet, db, s);
    } else if IsCaptureStep(s) {
      CaptureStepFrame(meet, db, s);
    } else {
      ResultStepFrame(meet, db, s);
    }
  }

  // Trials are never deleted, versions never fall, and a row changes only with its version.
  lemma TrialsEvolve(meet: Meet, db: Db, s: Step)
    ensures var next := Apply(meet, db, s);
            forall cell <- db.trials ::
              cell in next.trials && next.trials[cell].version >= db.trials[cell].version
              && (next.trials[cell].version == db.trials[cell].version ==> next.trials[cell] == db.trials[cell])
  {
    StepTrials(meet, db, s);
    var w := TrialWrite(meet, db, s);
    if w.Some? { SaveWritesOneCell(meet, db, w.value.0, w.value.1); }
  }

  // --- Runs ---

  // The step writes this cell under this expected version.
  predicate Consumes(meet: Meet, db: Db, s: Step, cell: Cell, expected: int) {
    var w := TrialWrite(meet, db, s);
    && w.Some? && CellOf(w.value.0, w.value.1) == cell && w.value.1.expected == expected
    && Apply(meet, db, s).trials != db.trials
  }

  function TimesConsumed(meet: Meet, db: Db, run: seq<Step>, cell: Cell, expected: int): nat {
    if run == [] then 0 else
    var init := run[..|run| - 1];
    TimesConsumed(meet, db, init, cell, expected)
    + if Consumes(meet, Exec(meet, db, init), run[|run| - 1], cell, expected) then 1 else 0
  }

  // Each version of a cell is consumed at most once, by whichever path captures it.
  lemma {:induction false} VersionConsumedOnce(meet: Meet, db: Db, run: seq<Step>, cell: Cell, expected: int)
    ensures TimesConsumed(meet, db, run, cell, expected) <= 1
    ensures TimesConsumed(meet, db, run, cell, expected) == 1 ==> Spent(Exec(meet, db, run), cell, expected)
  {
    if run != [] {
      var init, s := run[..|run| - 1], run[|run| - 1];
      var before := Exec(meet, db, init);
      VersionConsumedOnce(meet, db, init, cell, expected);
      TrialsEvolve(meet, before, s);
      if Consumes(meet, before, s, cell, expected) {
        var w := TrialWrite(meet, before, s).value;
        StepTrials(meet, before, s);
        SaveWritesOneCell(meet, before, w.0, w.1);
      }
    }
  }

  predicate IsReplayOf(s: Step, id: string) {
    (s.ReplayOp? || s.ReplayStopped?) && s.op.id == id
  }

  // The step replays this op and a trial changes.
  predicate Lands(meet: Meet, db: Db, s: Step, id: string) {
    IsReplayOf(s, id) && Apply(meet, db, s).trials != db.trials
  }

  function TimesLanded(meet: Meet, db: Db, run: seq<Step>, id: string): nat {
    if run == [] then 0 else
    var init := run[..|run| - 1];
    TimesLanded(meet, db, init, id) + if Lands(meet, Exec(meet, db, init), run[|run| - 1], id) then 1 else 0
  }

  // Resends of an id repeat the capture it was generated for; their stamps may differ.
  ghost predicate OneCapture(run: seq<Step>, id: string) {
    forall s, t :: s in run && t in run && IsReplayOf(s, id) && IsReplayOf(t, id) ==>
                     s.unit == t.unit && s.op == t.op
  }

  lemma LandingConsumes(meet: Meet, db: Db, s: Step, id: string)
    requires Lands(meet, db, s, id)
    ensures Consumes(meet, db, s, CellOf(s.unit, s.op.input), s.op.input.expected)
  {
    StepTrials(meet, db, s);
  }

  lemma {:induction false} LandedWithin(meet: Meet, db: Db, run: seq<Step>, id: string, unit: string, op: Op)
    requires forall s <- run :: IsReplayOf(s, id) ==> s.unit == unit && s.op == op
    ensures TimesLanded(meet, db, run, id) <= TimesConsumed(meet, db, run, CellOf(unit, op.input), op.input.expected)
  {
    if run != [] {
      var init, s := run[..|run| - 1], run[|run| - 1];
      LandedWithin(meet, db, init, id, unit, op);
      assert s in run;
      if Lands(meet, Exec(meet, db, init), s, id) { LandingConsumes(meet, Exec(meet, db, init), s, id); }
    }
  }

  // At most once, over every run from every state.
  lemma OpLandsAtMostOnce(meet: Meet, db: Db, run: seq<Step>, id: string)
    requires OneCapture(run, id)
    ensures TimesLanded(meet, db, run, id) <= 1
  {
    if s :| s in run && IsReplayOf(s, id) {
      LandedWithin(meet, db, run, id, s.unit, s.op);
      VersionConsumedOnce(meet, db, run, CellOf(s.unit, s.op.input), s.op.input.expected);
    } else {
      NeverReplayed(meet, db, run, id);
    }
  }

  lemma {:induction false} NeverReplayed(meet: Meet, db: Db, run: seq<Step>, id: string)
    requires forall s <- run :: !IsReplayOf(s, id)
    ensures TimesLanded(meet, db, run, id) == 0
  {
    if run != [] {
      NeverReplayed(meet, db, run[..|run| - 1], id);
      assert run[|run| - 1] in run;
    }
  }

  // Once decided, an op never lands again, even if its id comes back with another capture.
  lemma {:induction false} DecidedNeverLands(meet: Meet, db: Db, run: seq<Step>, id: string)
    requires id in db.ops
    ensures TimesLanded(meet, db, run, id) == 0 && id in Exec(meet, db, run).ops
  {
    if run != [] {
      var init, s := run[..|run| - 1], run[|run| - 1];
      DecidedNeverLands(meet, db, init, id);
      LedgerKept(meet, Exec(meet, db, init), s);
    }
  }

  lemma LedgerKept(meet: Meet, db: Db, s: Step)
    ensures forall id <- db.ops :: id in Apply(meet, db, s).ops && Apply(meet, db, s).ops[id] == db.ops[id]
  {
    if IsLockStep(s) {
      LockStepFrame(meet, db, s);
    } else if IsCaptureStep(s) {
      CaptureLedgerKept(meet, db, s);
    } else {
      ResultStepFrame(meet, db, s);
    }
  }

  lemma CaptureLedgerKept(meet: Meet, db: Db, s: Step)
    ensures var next := CaptureStep(meet, db, s);
            forall id <- db.ops :: id in next.ops && next.ops[id] == db.ops[id]
  {
    match s
    case ReplayOp(unit, from, op) => CR.ReplayLedger(meet, db, unit, from, op);
    case ReplayStopped(unit, from, op) => SaveFrame(meet, db, unit, op.input);
    case CaptureTrial(unit, input) => SaveFrame(meet, db, unit, input);
    case ResolveItem(index, apply, account) => ResolveKeepsLedger(meet, db, index, apply, account);
    case ResolveStopped(index, apply) => ResolveKeepsLedger(meet, db, index, apply, "");
    case _ =>
  }

  lemma ResolveKeepsLedger(meet: Meet, db: Db, index: nat, apply: bool, account: string)
    ensures ResolveCut(meet, db, index, apply).0.ops == db.ops
    ensures Resolve(meet, db, index, apply, account).0.ops == db.ops
  {}
}
