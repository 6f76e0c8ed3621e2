// The office applies a queued capture: over whatever the trial holds by then, so never refused
// for its version.
module ForceApply {
  import opened Basics
  import opened FieldSeries
  import opened Tables
  import opened Capture
  import opened Replay
  import opened Protocol
  import opened Invariants
  import opened Rejections
  import opened NothingLost
  import AMO = AtMostOnce

  // --- Versions count from one ---

  ghost predicate VersionsPositive(db: Db) {
    forall cell <- db.trials :: db.trials[cell].version >= 1
  }

  lemma SavedVersionPositive(meet: Meet, db: Db, unit: string, input: Input)
    ensures var row := SaveFieldAttempt(meet, db, unit, input).1;
            row.Ok? ==> row.value.version >= 1
  {}

  lemma StepVersions(meet: Meet, db: Db, s: Step)
    requires VersionsPositive(db)
    ensures VersionsPositive(Apply(meet, db, s))
  {
    AMO.StepTrials(meet, db, s);
    var w := TrialWrite(meet, db, s);
    if w.Some? {
      AMO.SaveWritesOneCell(meet, db, w.value.0, w.value.1);
      SavedVersionPositive(meet, db, w.value.0, w.value.1);
    }
  }

  lemma {:induction false} RunVersions(meet: Meet, db: Db, run: seq<Step>)
    requires VersionsPositive(db)
    ensures VersionsPositive(Exec(meet, db, run))
  {
    if run != [] {
      RunVersions(meet, db, run[..|run| - 1]);
      StepVersions(meet, Exec(meet, db, run[..|run| - 1]), run[|run| - 1]);
    }
  }

  // --- Applying an item ---

  // The unit takes trials of this athlete still, and the payload is one it accepts and can rate.
  predicate Capturable(meet: Meet, db: Db, unit: string, input: Input) {
    && meet.IsUnit(unit, Horizontal) && input.athlete in meet.roster
    && Acceptable(meet, unit, input.attempt) && !db.Announced(unit) && Rated(meet, db, unit, input)
  }

  lemma OverwriteExactly(meet: Meet, db: Db, unit: string, input: Input)
    requires VersionsPositive(db) && input.expected == CurrentVersion(db.trials, CellOf(unit, input))
    ensures var (next, row) := SaveFieldAttempt(meet, db, unit, input);
            && (row.Ok? <==> Capturable(meet, db, unit, input))
            && (row.Ok? ==> row.value.version == input.expected + 1)
            && (row.Err? ==> next == db)
  {
    if meet.IsUnit(unit, Horizontal) { SaveAnswers(meet, db, unit, input); }
  }

  // The item's payload, captured over the version the trial has by now.
  function Recapture(db: Db, item: Item): Input {
    var p := item.payload;
    Input(p.athlete, Attempt(p.trial, p.kind, p.mark, p.wind), CurrentVersion(db.trials, Cell(item.unit, p.athlete, p.trial)))
  }

  // In every reachable state, applying a pending item succeeds exactly when its payload could
  // be captured by anyone: no version is ever in the way. Then the trial holds the payload in
  // canonical spelling under the next version, the athlete's result is settled from the series,
  // and the item is closed; otherwise nothing changed and the item is still pending.
  lemma ApplyAlwaysLands(meet: Meet, run: seq<Step>, index: nat, account: string)
    requires var db := Exec(meet, EMPTY_DB, run);
             index < |db.items| && db.items[index].status.Pending?
    ensures var db := Exec(meet, EMPTY_DB, run);
            var (next, done) := Resolve(meet, db, index, true, account);
            var item, p := db.items[index], db.items[index].payload;
            var cell := Cell(item.unit, p.athlete, p.trial);
            && (done.Ok? <==> Capturable(meet, db, item.unit, Recapture(db, item)))
            && (done.Err? ==> next == db)
            && (done.Ok? ==>
                  && Holds(meet, next, cell, Attempt(p.trial, p.kind, p.mark, p.wind))
                  && next.trials[cell].version == CurrentVersion(db.trials, cell) + 1
                  && SettledAgrees(meet, next, item.unit, p.athlete)
                  && next.items == db.items[index := item.(status := ItemApplied, resolvedBy := account)])
  {
    var db := Exec(meet, EMPTY_DB, run);
    RunVersions(meet, EMPTY_DB, run);
    OverwriteExactly(meet, db, db.items[index].unit, Recapture(db, db.items[index]));
    ApplyWrites(meet, db, index, account);
  }

  // The cell holds this attempt in canonical spelling.
  ghost predicate Holds(meet: Meet, db: Db, cell: Cell, a: Attempt) {
    && cell in db.trials && cell.unit in meet.units
    && var row := db.trials[cell];
       Validated(a, meet.units[cell.unit].windRelevant) == Some(Attempt(cell.trial, row.kind, row.mark, row.wind))
  }

  lemma ApplyWrites(meet: Meet, db: Db, index: nat, account: string)
    requires index < |db.items| && db.items[index].status.Pending?
    ensures var (next, done) := Resolve(meet, db, index, true, account);
            var item := db.items[index];
            var input := Recapture(db, item);
            var (saved, row) := SaveFieldAttempt(meet, db, item.unit, input);
            var cell := Cell(item.unit, input.athlete, input.attempt.trial);
            && (done.Ok? <==> row.Ok?) && (done.Err? ==> next == saved)
            && (done.Ok? ==>
                  && Holds(meet, next, cell, input.attempt) && next.trials[cell] == row.value
                  && SettledAgrees(meet, next, item.unit, input.athlete)
                  && next.items == db.items[index := item.(status := ItemApplied, resolvedBy := account)])
  {
    var item := db.items[index];
    var input := Recapture(db, item);
    var (saved, row) := SaveFieldAttempt(meet, db, item.unit, input);
    var next := Resolve(meet, db, index, true, account).0;
    SaveFrame(meet, db, item.unit, input);
    if row.Ok? {
      WrittenCells(meet, db, item.unit, input);
      WriteSettles(meet, db, item.unit, input, item.unit, input.athlete);
      assert next.trials == saved.trials && next.results == saved.results;
    }
  }

  // --- From the device to the trial ---

  // Every reconciled op of a reachable state was sent by one replay of the run, its queue item
  // still holds what was captured, and when the office applies that item, the op's own trial
  // holds its capture in canonical spelling.
  lemma QueuedOpLands(meet: Meet, run: seq<Step>, id: string, account: string) returns (i: nat, index: nat)
    requires meet.Valid() && id in Exec(meet, EMPTY_DB, run).ops
    requires Exec(meet, EMPTY_DB, run).ops[id].decision.Reconciled?
    ensures i < |run| && run[i].ReplayOp? && run[i].op.id == id
    ensures var db, op, unit := Exec(meet, EMPTY_DB, run), run[i].op, run[i].unit;
            && index < |db.items|
            && Carries(db.items[index].(status := Pending), unit, run[i].from, op, db.ops[id].decision.why)
            && (db.items[index].status.Pending? ==>
                  var (next, done) := Resolve(meet, db, index, true, account);
                  done.Ok? ==> Holds(meet, next, Cell(unit, op.input.athlete, op.input.attempt.trial), op.input.attempt))
  {
    var db := Exec(meet, EMPTY_DB, run);
    i := LedgerAccounted(meet, run, id);
    index := |Exec(meet, EMPTY_DB, run[..i]).items|;
    var after := Exec(meet, EMPTY_DB, run[..i + 1]);
    assert ItemsPersist(after, db) && after.ops[id] == db.ops[id];
    assert Carries(after.items[index], run[i].unit, run[i].from, run[i].op, db.ops[id].decision.why);
    if db.items[index].status.Pending? {
      var op := run[i].op;
      ApplyAlwaysLands(meet, run, index, account);
      AttemptByFields(op.input.attempt);
    }
  }

  lemma AttemptByFields(a: Attempt)
    ensures Attempt(a.trial, a.kind, a.mark, a.wind) == a
  {}
}
