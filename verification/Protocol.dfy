// The server as a transition system: every request, and every way it can stop between two
// transactions, is one step on the tables; a file of timing rows is a step for each row.
module Protocol {
  import opened Basics
  import opened Tables
  import opened Checkouts
  import opened Capture
  import opened Replay
  import R = Results

  datatype Step =
    | Ensure(account: string, unit: string, device: string)
    | TakeLock(account: string, unit: string, device: string)
    | Override(account: string, unit: string, device: string)
    | Revise(unit: string)
    | Release(unit: string)
    | ReplayOp(unit: string, from: Sender, op: Op)
    | ReplayStopped(unit: string, from: Sender, op: Op)
    | CaptureTrial(unit: string, input: Input)
    | ResolveItem(index: nat, apply: bool, account: string)
    | ResolveStopped(index: nat, apply: bool)
    | AnnounceUnit(unit: string, now: int)
    | Correct(unit: string, athlete: string, correction: R.Correction, now: int)
    | CaptureTrack(unit: string, track: R.TrackInput)
    | SetHeights(unit: string, heights: seq<string>, expected: int)
    | CaptureBar(unit: string, bar: R.BarInput)
    | BulkDNS(unit: string)
    | BulkStopped(unit: string, n: nat)
    | ImportTimingRow(row: TimingRow, source: Source)
    | ResolveTiming(index: nat, choice: R.Choice, now: int)
    | TimingStopped(index: nat, choice: R.Choice, now: int)

  function LockStep(meet: Meet, db: Db, s: Step): Db {
    match s
    case Ensure(account, unit, device) => EnsureCheckout(meet, db, account, unit, device).0
    case TakeLock(account, unit, device) => CheckoutUnit(meet, db, account, unit, device).0
    case Override(account, unit, device) => OverrideCheckout(meet, db, account, unit, device).0
    case Revise(unit) => ReviseStartList(meet, db, unit).0
    case Release(unit) => ReleaseCheckout(meet, db, unit).0
    case _ => db
  }

  function CaptureStep(meet: Meet, db: Db, s: Step): Db {
    match s
    case ReplayOp(unit, from, op) => if meet.IsUnit(unit, Horizontal) then ReplayOne(meet, db, unit, from, op).0 else db
    case ReplayStopped(unit, from, op) => if meet.IsUnit(unit, Horizontal) then ReplayCut(meet, db, unit, from, op) else db
    case CaptureTrial(unit, input) => SaveFieldAttempt(meet, db, unit, input).0
    case ResolveItem(index, apply, account) => Resolve(meet, db, index, apply, account).0
    case ResolveStopped(index, apply) => ResolveCut(meet, db, index, apply).0
    case _ => db
  }

  function ResultStep(meet: Meet, db: Db, s: Step): Db {
    match s
    case AnnounceUnit(unit, now) => R.AnnounceUnitResults(meet, db, unit, now).0
    case Correct(unit, athlete, correction, now) => R.CorrectResult(meet, db, unit, athlete, correction, now).0
    case CaptureTrack(unit, track) => R.SaveTrackResult(meet, db, unit, track).0
    case SetHeights(unit, heights, expected) => R.SetHeights(meet, db, unit, heights, expected).0
    case CaptureBar(unit, bar) => R.SaveVerticalTrial(meet, db, unit, bar).0
    case BulkDNS(unit) => R.BulkMarkRemainingDNS(meet, db, unit).0
    case BulkStopped(unit, n) => R.BulkCut(meet, db, unit, n)
    case ImportTimingRow(row, source) => R.ImportRow(meet, db, row, source).0
    case ResolveTiming(index, choice, now) => R.ResolveTimingConflict(meet, db, index, choice, now).0
    case TimingStopped(index, choice, now) => R.ResolveTimingCut(meet, db, index, choice, now)
    case _ => db
  }

  predicate IsLockStep(s: Step) {
    s.Ensure? || s.TakeLock? || s.Override? || s.Revise? || s.Release?
  }

  predicate IsCaptureStep(s: Step) {
    s.ReplayOp? || s.ReplayStopped? || s.CaptureTrial? || s.ResolveItem? || s.ResolveStopped?
  }

  function Apply(meet: Meet, db: Db, s: Step): Db {
    if IsLockStep(s) then LockStep(meet, db, s)
    else if IsCaptureStep(s) then CaptureStep(meet, db, s)
    else ResultStep(meet, db, s)
  }

  function Exec(meet: Meet, db: Db, run: seq<Step>): Db {
    if run == [] then db
    else Apply(meet, Exec(meet, db, run[..|run| - 1]), run[|run| - 1])
  }

  // --- What requests can lead to ---

  ghost predicate Follows(meet: Meet, db: Db, next: Db) {
    exists run: seq<Step> :: next == Exec(meet, db, run)
  }

  lemma FollowsStep(meet: Meet, db: Db, s: Step)
    ensures Follows(meet, db, Apply(meet, db, s))
  {
    assert [s][..0] == [] && Exec(meet, db, []) == db;
    assert Exec(meet, db, [s]) == Apply(meet, db, s);
  }

  lemma FollowsItself(meet: Meet, db: Db)
    ensures Follows(meet, db, db)
  {
    assert Exec(meet, db, []) == db;
  }

  lemma {:induction false} ExecAppend(meet: Meet, db: Db, run: seq<Step>, more: seq<Step>)
    ensures Exec(meet, db, run + more) == Exec(meet, Exec(meet, db, run), more)
  {
    if more == [] {
      assert run + more == run;
    } else {
      assert (run + more)[..|run + more| - 1] == run + more[..|more| - 1];
      ExecAppend(meet, db, run, more[..|more| - 1]);
    }
  }

  lemma FollowsThen(meet: Meet, db: Db, next: Db, last: Db)
    requires Follows(meet, db, next) && Follows(meet, next, last)
    ensures Follows(meet, db, last)
  {
    var run: seq<Step> :| next == Exec(meet, db, run);
    var more: seq<Step> :| last == Exec(meet, next, more);
    ExecAppend(meet, db, run, more);
  }

  // --- Which tables a step can touch ---

  // Only the named tables may differ.
  ghost predicate OnlyLocks(db: Db, next: Db) {
    next == db.(checkouts := next.checkouts, nextToken := next.nextToken)
  }

  ghost predicate OnlyQueue(db: Db, next: Db) {
    next == db.(ops := next.ops, items := next.items)
  }

  ghost predicate OnlyResults(db: Db, next: Db) {
    next == db.(results := next.results, bars := next.bars)
  }

  lemma EnsureFrame(meet: Meet, db: Db, account: string, unit: string, device: string)
    ensures OnlyLocks(db, EnsureCheckout(meet, db, account, unit, device).0)
  {}

  lemma TakeFrame(meet: Meet, db: Db, account: string, unit: string, device: string)
    ensures OnlyLocks(db, CheckoutUnit(meet, db, account, unit, device).0)
  {}

  lemma OverrideFrame(meet: Meet, db: Db, account: string, unit: string, device: string)
    ensures OnlyLocks(db, OverrideCheckout(meet, db, account, unit, device).0)
  {}

  lemma LockStepFrame(meet: Meet, db: Db, s: Step)
    ensures OnlyLocks(db, LockStep(meet, db, s))
  {
    match s
    case Ensure(account, unit, device) => EnsureFrame(meet, db, account, unit, device);
    case TakeLock(account, unit, device) => TakeFrame(meet, db, account, unit, device);
    case Override(account, unit, device) => OverrideFrame(meet, db, account, unit, device);
    case _ =>
  }

  // The trial write a step attempts, if any.
  function TrialWrite(meet: Meet, db: Db, s: Step): Option<(string, Input)> {
    match s
    case ReplayOp(unit, from, op) =>
      if meet.IsUnit(unit, Horizontal) && op.id !in db.ops && Decide(db, unit, from.stamp) == ApplyIt
      then Some((unit, op.input)) else None
    case ReplayStopped(unit, from, op) =>
      if meet.IsUnit(unit, Horizontal) && op.id !in db.ops && Decide(db, unit, from.stamp) == ApplyIt
      then Some((unit, op.input)) else None
    case CaptureTrial(unit, input) => Some((unit, input))
    case ResolveItem(index, apply, _) => ItemWrite(db, index, apply)
    case ResolveStopped(index, apply) => ItemWrite(db, index, apply)
    case _ => None
  }

  function ItemWrite(db: Db, index: nat, apply: bool): Option<(string, Input)> {
    if index < |db.items| && db.items[index].status.Pending? && apply
    then Some((db.items[index].unit, ItemInput(db, db.items[index]))) else None
  }

  function AfterWrite(meet: Meet, db: Db, write: Option<(string, Input)>): Db {
    if write.None? then db else SaveFieldAttempt(meet, db, write.value.0, write.value.1).0
  }

  // Everything a capture step does to trials and results is that one write; beside it, only
  // the ledger and the queue change.
  lemma CaptureStepFrame(meet: Meet, db: Db, s: Step)
    requires IsCaptureStep(s)
    ensures var saved, next := AfterWrite(meet, db, TrialWrite(meet, db, s)), CaptureStep(meet, db, s);
            OnlyQueue(saved, next)
  {
    match s
    case ReplayOp(unit, from, op) => ReplayFrame(meet, db, unit, from, op);
    case ResolveItem(index, apply, account) => ResolveFrame(meet, db, index, apply, account);
    case _ =>
  }

  lemma ResolveFrame(meet: Meet, db: Db, index: nat, apply: bool, account: string)
    ensures var saved, next := ResolveCut(meet, db, index, apply).0, Resolve(meet, db, index, apply, account).0;
            OnlyQueue(saved, next)
  {}

  lemma RouteFrame(db: Db, unit: string, from: Sender, op: Op, why: ReconcileReason)
    ensures OnlyQueue(db, Route(db, unit, from, op, why).0)
  {}

  lemma ConcludeFrame(db: Db, row: Result<StoredTrial, CaptureError>, unit: string, from: Sender, op: Op)
    ensures OnlyQueue(db, Conclude(db, row, unit, from, op).0)
  {
    RouteFrame(db, unit, from, op, Diverged);
    RecordFrame(db, op, unit, Applied);
    if row.Err? && ClassifyRejection(row.error).Some? {
      RecordFrame(db, op, unit, Rejected(ClassifyRejection(row.error).value));
    }
  }

  lemma RecordFrame(db: Db, op: Op, unit: string, decision: Decision)
    ensures OnlyQueue(db, Record(db, op, unit, decision))
  {}

  lemma ReplayFrame(meet: Meet, db: Db, unit: string, from: Sender, op: Op)
    ensures var saved, next := ReplayCut(meet, db, unit, from, op), ReplayOne(meet, db, unit, from, op).0;
            OnlyQueue(saved, next)
  {
    if op.id !in db.ops && Decide(db, unit, from.stamp) == ApplyIt {
      var (saved, row) := SaveFieldAttempt(meet, db, unit, op.input);
      ConcludeFrame(saved, row, unit, from, op);
    } else if op.id !in db.ops {
      RouteFrame(db, unit, from, op, StaleCheckout);
      RouteFrame(db, unit, from, op, StartListChange);
    }
  }

  lemma SaveFrame(meet: Meet, db: Db, unit: string, input: Input)
    ensures var next := SaveFieldAttempt(meet, db, unit, input).0;
            next == db.(trials := next.trials, results := next.results)
  {}

  // Result steps leave locks, ledger, trials and the reconciliation queue alone.
  ghost predicate KeepsCapture(db: Db, next: Db) {
    next == db.(results := next.results, bars := next.bars, heights := next.heights,
                conflicts := next.conflicts, announcements := next.announcements)
  }

  lemma ResultStepFrame(meet: Meet, db: Db, s: Step)
    ensures KeepsCapture(db, ResultStep(meet, db, s))
  {
    match s
    case BulkDNS(unit) => MarkDNSFrame(db, unit, R.Unresulted(db, unit, meet.roster));
    case ImportTimingRow(row, source) => ImportFrame(meet, db, row, source);
    case ResolveTiming(index, choice, now) => ResolveTimingFrame(meet, db, index, choice, now);
    case TimingStopped(index, choice, now) => TimingCutFrame(meet, db, index, choice, now);
    case BulkStopped(unit, n) => BulkCutFrame(meet, db, unit, n);
    case SetHeights(unit, heights, expected) => HeightsFrame(meet, db, unit, heights, expected);
    case AnnounceUnit(unit, now) => AnnounceFrame(db, unit, now);
    case Correct(unit, athlete, correction, now) => CorrectFrame(meet, db, unit, athlete, correction, now);
    case CaptureTrack(unit, track) => TrackFrame(meet, db, unit, track);
    case CaptureBar(unit, bar) => BarFrame(meet, db, unit, bar);
    case _ =>
  }

  lemma {:induction false} MarkDNSFrame(db: Db, unit: string, athletes: seq<string>)
    ensures OnlyResults(db, R.MarkDNS(db, unit, athletes).0)
  {
    if athletes != [] { MarkDNSFrame(db, unit, athletes[..|athletes| - 1]); }
  }

  lemma BulkCutFrame(meet: Meet, db: Db, unit: string, n: nat)
    ensures var next := R.BulkCut(meet, db, unit, n);
            OnlyResults(db, next)
  {
    var open := R.Unresulted(db, unit, meet.roster);
    MarkDNSFrame(db, unit, if n < |open| then open[..n] else open);
  }

  lemma HeightsFrame(meet: Meet, db: Db, unit: string, heights: seq<string>, expected: int)
    ensures var next := R.SetHeights(meet, db, unit, heights, expected).0;
            next == db.(heights := next.heights)
  {}

  lemma AnnounceFrame(db: Db, unit: string, now: int)
    ensures var next := R.Announce(db, unit, now);
            next == db.(announcements := next.announcements)
  {}

  lemma TrackFrame(meet: Meet, db: Db, unit: string, track: R.TrackInput)
    ensures var next := R.SaveTrackResult(meet, db, unit, track).0;
            OnlyResults(db, next)
  {}

  lemma BarFrame(meet: Meet, db: Db, unit: string, bar: R.BarInput)
    ensures var next := R.SaveVerticalTrial(meet, db, unit, bar).0;
            OnlyResults(db, next)
  {}

  lemma CorrectFrame(meet: Meet, db: Db, unit: string, athlete: string, c: R.Correction, now: int)
    ensures var next := R.CorrectResult(meet, db, unit, athlete, c, now).0;
            next == db.(results := next.results, announcements := next.announcements)
  {}

  lemma ApplyRowFrame(meet: Meet, db: Db, unit: string, athlete: string, row: TimingRow, source: Source)
    ensures var next := R.ApplyTimingRow(meet, db, unit, athlete, row, source).0;
            next == db.(results := next.results)
  {}

  lemma ImportFrame(meet: Meet, db: Db, row: TimingRow, source: Source)
    ensures var next := R.ImportRow(meet, db, row, source).0;
            next == db.(results := next.results, conflicts := next.conflicts)
  {
    var t := R.Resolved(meet, db, row);
    if t.unit.Some? && t.athlete.Some? {
      ApplyRowFrame(meet, db, t.unit.value, t.athlete.value, row, source);
    }
  }

  lemma WriteChoiceFrame(meet: Meet, db: Db, c: Conflict, choice: R.Choice, now: int)
    ensures var next := R.WriteChoice(meet, db, c, choice, now).0;
            next == db.(results := next.results, announcements := next.announcements)
  {
    if c.unit.Some? {
      var unit, athlete, row := c.unit.value, R.ChosenAthlete(c, choice), R.ChosenRow(db, c, choice);
      ApplyRowFrame(meet, db, unit, athlete, row, c.source);
      CorrectFrame(meet, db, unit, athlete, R.CorrectionFrom(row, choice), now);
    }
  }

  lemma ResolveTimingFrame(meet: Meet, db: Db, index: nat, choice: R.Choice, now: int)
    ensures var next := R.ResolveTimingConflict(meet, db, index, choice, now).0;
            next == db.(results := next.results, conflicts := next.conflicts, announcements := next.announcements)
  {
    if index < |db.conflicts| {
      WriteChoiceFrame(meet, db, db.conflicts[index], choice, now);
      var saved := R.WriteChoice(meet, db, db.conflicts[index], choice, now).0;
      SetConflictFrame(db, index, if choice.action.Keep? then Kept else Discarded);
      SetConflictFrame(saved, index, if choice.action.Merge? then Merged else Replaced);
    }
  }

  lemma TimingCutFrame(meet: Meet, db: Db, index: nat, choice: R.Choice, now: int)
    ensures var next := R.ResolveTimingCut(meet, db, index, choice, now);
            next == db.(results := next.results, announcements := next.announcements)
  {
    if index < |db.conflicts| { WriteChoiceFrame(meet, db, db.conflicts[index], choice, now); }
  }

  lemma SetConflictFrame(db: Db, index: nat, status: ConflictStatus)
    requires index < |db.conflicts|
    ensures var next := R.SetConflict(db, index, status).0;
            next == db.(conflicts := next.conflicts)
  {}
}
