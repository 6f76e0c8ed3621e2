// Every op the server acknowledges leaves a trace: a trial that held its value, a recorded
// rejection, or exactly one queue item with its payload that only an office decision closes.
module NothingLost {
  import opened Basics
  import opened FieldSeries
  import opened Tables
  import opened Checkouts
  import opened Capture
  import opened Replay
  import opened Protocol
  import opened Invariants
  import CR = CrashResend
  import AMO = AtMostOnce

  // --- The queue and the ledger match ---

  function ItemsOf(items: seq<Item>, id: string): nat {
    if items == [] then 0
    else ItemsOf(items[..|items| - 1], id) + if items[|items| - 1].op == id then 1 else 0
  }

  // One item per reconciled op, none for any other.
  ghost predicate QueueMatches(db: Db) {
    forall id: string ::
      ItemsOf(db.items, id) == if id in db.ops && db.ops[id].decision.Reconciled? then 1 else 0
  }

  lemma ItemsOfAppend(items: seq<Item>, item: Item, id: string)
    ensures ItemsOf(items + [item], id) == ItemsOf(items, id) + if item.op == id then 1 else 0
  {
    assert (items + [item])[..|items|] == items;
  }

  lemma {:induction false} ItemsOfUpdate(items: seq<Item>, index: nat, item: Item, id: string)
    requires index < |items| && item.op == items[index].op
    ensures ItemsOf(items[index := item], id) == ItemsOf(items, id)
  {
    var n := |items| - 1;
    if index < n {
      assert items[index := item][..n] == items[..n][index := item];
      ItemsOfUpdate(items[..n], index, item, id);
    } else {
      assert items[index := item][..n] == items[..n];
    }
  }

  lemma RouteMatches(db: Db, unit: string, from: Sender, op: Op, why: ReconcileReason)
    requires QueueMatches(db) && op.id !in db.ops
    ensures QueueMatches(Route(db, unit, from, op, why).0)
  {
    var next := Route(db, unit, from, op, why).0;
    var item := next.items[|db.items|];
    assert next.items == db.items + [item];
    forall id: string
      ensures ItemsOf(next.items, id) == if id in next.ops && next.ops[id].decision.Reconciled? then 1 else 0
    {
      ItemsOfAppend(db.items, item, id);
    }
  }

  lemma RecordMatches(db: Db, op: Op, unit: string, decision: Decision)
    requires QueueMatches(db) && op.id !in db.ops && !decision.Reconciled?
    ensures QueueMatches(Record(db, op, unit, decision))
  {}

  lemma ConcludeMatches(db: Db, row: Result<StoredTrial, CaptureError>, unit: string, from: Sender, op: Op)
    requires QueueMatches(db) && op.id !in db.ops
    ensures QueueMatches(Conclude(db, row, unit, from, op).0)
  {
    RouteMatches(db, unit, from, op, Diverged);
    RecordMatches(db, op, unit, Applied);
    if row.Err? && ClassifyRejection(row.error).Some? {
      RecordMatches(db, op, unit, Rejected(ClassifyRejection(row.error).value));
    }
  }

  lemma ReplayMatches(meet: Meet, db: Db, unit: string, from: Sender, op: Op)
    requires QueueMatches(db)
    ensures QueueMatches(ReplayOne(meet, db, unit, from, op).0)
  {
    if op.id !in db.ops {
      match Decide(db, unit, from.stamp)
      case ApplyIt =>
        var (saved, row) := SaveFieldAttempt(meet, db, unit, op.input);
        SaveFrame(meet, db, unit, op.input);
        ConcludeMatches(saved, row, unit, from, op);
      case RouteStartList => RouteMatches(db, unit, from, op, StartListChange);
      case RouteStale => RouteMatches(db, unit, from, op, StaleCheckout);
    }
  }

  // --- What may happen to a queue item ---

  // Items are never removed or rewritten; only a pending item's status may change.
  ghost predicate ItemsPersist(db: Db, next: Db) {
    && |db.items| <= |next.items|
    && forall i :: 0 <= i < |db.items| ==>
         && next.items[i] == db.items[i].(status := next.items[i].status, resolvedBy := next.items[i].resolvedBy)
         && (next.items[i] != db.items[i] ==> db.items[i].status.Pending? && !next.items[i].status.Pending?)
  }

  lemma RoutePersists(db: Db, unit: string, from: Sender, op: Op, why: ReconcileReason)
    ensures db.items <= Route(db, unit, from, op, why).0.items
  {}

  lemma ConcludePersists(db: Db, row: Result<StoredTrial, CaptureError>, unit: string, from: Sender, op: Op)
    ensures db.items <= Conclude(db, row, unit, from, op).0.items
  {
    RoutePersists(db, unit, from, op, Diverged);
  }

  lemma ReplayPersists(meet: Meet, db: Db, unit: string, from: Sender, op: Op)
    ensures db.items <= ReplayOne(meet, db, unit, from, op).0.items
  {
    if op.id !in db.ops {
      var (saved, row) := SaveFieldAttempt(meet, db, unit, op.input);
      SaveFrame(meet, db, unit, op.input);
      ConcludePersists(saved, row, unit, from, op);
      RoutePersists(db, unit, from, op, StartListChange);
      RoutePersists(db, unit, from, op, StaleCheckout);
    }
  }

  lemma CutKeepsItems(meet: Meet, db: Db, index: nat, apply: bool)
    ensures ResolveCut(meet, db, index, apply).0.items == db.items
    ensures ResolveCut(meet, db, index, apply).0.ops == db.ops
    ensures ResolveCut(meet, db, index, apply).1.Ok? ==> index < |db.items| && db.items[index].status.Pending?
  {}

  // Resolving changes the one item it names, and only to what the office chose.
  lemma ResolveChangesOne(meet: Meet, db: Db, index: nat, apply: bool, account: string)
    ensures var next := Resolve(meet, db, index, apply, account).0;
            next.ops == db.ops &&
            (next.items == db.items ||
             (index < |db.items| && db.items[index].status.Pending? &&
              next.items == db.items[index := db.items[index].(
                status := if apply then ItemApplied else ItemDiscarded, resolvedBy := account)]))
  {
    CutKeepsItems(meet, db, index, apply);
  }

  // Only replays and decisions touch the ledger or the queue.
  lemma OtherStepsKeep(meet: Meet, db: Db, s: Step)
    requires !s.ReplayOp? && !s.ResolveItem?
    ensures Apply(meet, db, s).items == db.items && Apply(meet, db, s).ops == db.ops
  {
    match s
    case ReplayStopped(unit, _, op) => SaveFrame(meet, db, unit, op.input);
    case CaptureTrial(unit, input) => SaveFrame(meet, db, unit, input);
    case ResolveStopped(index, apply) => CutKeepsItems(meet, db, index, apply);
    case _ =>
      LockStepFrame(meet, db, s);
      ResultStepFrame(meet, db, s);
  }

  lemma StepPersists(meet: Meet, db: Db, s: Step)
    ensures ItemsPersist(db, Apply(meet, db, s))
    ensures !s.ResolveItem? ==> db.items <= Apply(meet, db, s).items
  {
    match s
    case ReplayOp(unit, from, op) => ReplayPersists(meet, db, unit, from, op);
    case ResolveItem(index, apply, account) => ResolveChangesOne(meet, db, index, apply, account);
    case _ => OtherStepsKeep(meet, db, s);
  }

  lemma StepMatches(meet: Meet, db: Db, s: Step)
    requires QueueMatches(db)
    ensures QueueMatches(Apply(meet, db, s))
  {
    match s
    case ReplayOp(unit, from, op) => ReplayMatches(meet, db, unit, from, op);
    case ResolveItem(index, apply, account) =>
      ResolveChangesOne(meet, db, index, apply, account);
      if index < |db.items| {
        var item := db.items[index].(status := if apply then ItemApplied else ItemDiscarded, resolvedBy := account);
        forall id: string ensures ItemsOf(db.items[index := item], id) == ItemsOf(db.items, id) {
          ItemsOfUpdate(db.items, index, item, id);
        }
      }
    case _ => OtherStepsKeep(meet, db, s);
  }

  lemma {:induction false} RunMatches(meet: Meet, db: Db, run: seq<Step>)
    requires QueueMatches(db)
    ensures QueueMatches(Exec(meet, db, run))
  {
    if run != [] {
      RunMatches(meet, db, run[..|run| - 1]);
      StepMatches(meet, Exec(meet, db, run[..|run| - 1]), run[|run| - 1]);
    }
  }

  lemma {:induction false} RunPersists(meet: Meet, db: Db, run: seq<Step>)
    ensures ItemsPersist(db, Exec(meet, db, run))
  {
    if run != [] {
      RunPersists(meet, db, run[..|run| - 1]);
      StepPersists(meet, Exec(meet, db, run[..|run| - 1]), run[|run| - 1]);
    }
  }

  // An item that is pending at db and not after the run was closed by an explicit apply or
  // discard step of that run, and shows that choice.
  lemma {:induction false} ItemLeavesPendingByDecision(meet: Meet, db: Db, run: seq<Step>, item: nat) returns (i: nat)
    requires item < |db.items| && db.items[item].status.Pending?
    requires item < |Exec(meet, db, run).items| && !Exec(meet, db, run).items[item].status.Pending?
    ensures i < |run| && run[i].ResolveItem? && run[i].index == item
    ensures Exec(meet, db, run).items[item].status == if run[i].apply then ItemApplied else ItemDiscarded
  {
    var init, s := run[..|run| - 1], run[|run| - 1];
    var before := Exec(meet, db, init);
    RunPersists(meet, db, init);
    StepPersists(meet, before, s);
    if before.items[item].status.Pending? {
      i := |run| - 1;
      if s.ResolveItem? { ResolveChangesOne(meet, before, s.index, s.apply, s.account); }
    } else {
      i := ItemLeavesPendingByDecision(meet, db, init, item);
    }
  }

  // --- Every ledger entry has its reason ---

  // The lock the stamp was issued with still stands.
  predicate LockStands(db: Db, unit: string, stamp: Stamp) {
    && unit in db.checkouts && db.checkouts[unit].active
    && db.checkouts[unit].token == stamp.token && db.checkouts[unit].generation == stamp.generation
  }

  // Why a capture under this stamp would be queued: the lock is gone, or its start list is
  // another one, or else the stored trial is not what the device saw.
  function WhyRouted(db: Db, unit: string, stamp: Stamp): ReconcileReason {
    if !LockStands(db, unit, stamp) then StaleCheckout
    else if db.checkouts[unit].startList != stamp.startList then StartListChange
    else Diverged
  }

  // A pending item that holds everything the op captured, and who sent it under which stamp.
  ghost predicate Carries(item: Item, unit: string, from: Sender, op: Op, why: ReconcileReason) {
    var p, a := item.payload, op.input.attempt;
    && item.op == op.id && item.unit == unit && item.why == why && item.status.Pending?
    && p.athlete == op.input.athlete && p.trial == a.trial && p.kind == a.kind && p.mark == a.mark && p.wind == a.wind
    && item.capturedBy == from.account && item.device == from.device
    && item.generation == from.stamp.generation && item.startList == from.stamp.startList
  }

  // What deciding op at `before` left in `after`.
  ghost predicate Accounted(meet: Meet, before: Db, after: Db, unit: string, from: Sender, op: Op) {
    && op.id !in before.ops && op.id in after.ops && after.ops[op.id].unit == unit
    && match after.ops[op.id].decision
       case Applied =>
         var cell := CellOf(unit, op.input);
         unit in meet.units && cell in after.trials
         && Validated(op.input.attempt, meet.units[unit].windRelevant) == Some(AttemptAt(cell, after.trials[cell]))
       case Rejected(reason) =>
         var answer := SaveFieldAttempt(meet, before, unit, op.input).1;
         answer.Err? && ClassifyRejection(answer.error) == Some(reason)
       case Reconciled(why) =>
         && |after.items| == |before.items| + 1 && why == WhyRouted(before, unit, from.stamp)
         && Carries(after.items[|before.items|], unit, from, op, why)
  }

  lemma RouteAccounted(meet: Meet, db: Db, unit: string, from: Sender, op: Op, why: ReconcileReason)
    requires op.id !in db.ops && why == WhyRouted(db, unit, from.stamp)
    ensures Accounted(meet, db, Route(db, unit, from, op, why).0, unit, from, op)
  {}

  // A conflict means the input itself was acceptable.
  lemma ConflictIsValid(meet: Meet, db: Db, unit: string, op: Op)
    requires TrialsValid(meet, db)
    requires SaveFieldAttempt(meet, db, unit, op.input).1.Err?
    requires SaveFieldAttempt(meet, db, unit, op.input).1.error.VersionConflict?
    ensures var current := SaveFieldAttempt(meet, db, unit, op.input).1.error.current;
            var cell := CellOf(unit, op.input);
            cell in db.trials && current == db.trials[cell] && unit in meet.units
            && (SameAttempt(current, op) ==>
                  Validated(op.input.attempt, meet.units[unit].windRelevant) == Some(AttemptAt(cell, current)))
  {
    var cell := CellOf(unit, op.input);
    assert cell in db.trials && TrialValid(meet, cell, db.trials[cell]);
    if SameAttempt(db.trials[cell], op) {
      assert op.input.attempt == AttemptAt(cell, db.trials[cell]);
    }
  }

  lemma WrittenIsValidated(meet: Meet, db: Db, unit: string, input: Input)
    requires SaveFieldAttempt(meet, db, unit, input).1.Ok?
    ensures var (next, row) := SaveFieldAttempt(meet, db, unit, input);
            var cell := CellOf(unit, input);
            unit in meet.units && cell in next.trials && next.trials[cell] == row.value
            && Validated(input.attempt, meet.units[unit].windRelevant) == Some(AttemptAt(cell, row.value))
  {}

  lemma ApplyAccounted(meet: Meet, db: Db, unit: string, from: Sender, op: Op)
    requires TrialsValid(meet, db) && op.id !in db.ops && Decide(db, unit, from.stamp) == ApplyIt
    ensures var (next, answer) := ApplyOp(meet, db, unit, from, op);
            answer.Ok? ==> Accounted(meet, db, next, unit, from, op)
  {
    var (saved, row) := SaveFieldAttempt(meet, db, unit, op.input);
    SaveFrame(meet, db, unit, op.input);
    if row.Ok? {
      WrittenIsValidated(meet, db, unit, op.input);
    } else {
      CR.FailedSaveChangesNothing(meet, db, unit, op.input);
      if row.error.VersionConflict? {
        ConflictIsValid(meet, db, unit, op);
        RouteAccounted(meet, db, unit, from, op, Diverged);
      }
    }
  }

  lemma ReplayAccounted(meet: Meet, db: Db, unit: string, from: Sender, op: Op)
    requires TrialsValid(meet, db) && op.id !in db.ops
    ensures var (next, answer) := ReplayOne(meet, db, unit, from, op);
            if answer.Ok? then Accounted(meet, db, next, unit, from, op) else next == db
  {
    CR.ReplayLedger(meet, db, unit, from, op);
    match Decide(db, unit, from.stamp)
    case ApplyIt => ApplyAccounted(meet, db, unit, from, op);
    case RouteStartList => RouteAccounted(meet, db, unit, from, op, StartListChange);
    case RouteStale => RouteAccounted(meet, db, unit, from, op, StaleCheckout);
  }

  // A ledger entry that appears comes from a replay of that op, and is accounted for.
  lemma NewEntryAccounted(meet: Meet, db: Db, s: Step, id: string)
    requires TrialsValid(meet, db) && id !in db.ops && id in Apply(meet, db, s).ops
    ensures s.ReplayOp? && s.op.id == id && Accounted(meet, db, Apply(meet, db, s), s.unit, s.from, s.op)
  {
    match s
    case ReplayOp(unit, from, op) =>
      CR.ReplayLedger(meet, db, unit, from, op);
      if op.id !in db.ops {
        ReplayAccounted(meet, db, unit, from, op);
        OnlyOwnEntry(meet, db, unit, from, op, id);
      }
    case ResolveItem(index, apply, account) => ResolveChangesOne(meet, db, index, apply, account);
    case _ => OtherStepsKeep(meet, db, s);
  }

  lemma RouteOwnEntry(db: Db, unit: string, from: Sender, op: Op, why: ReconcileReason, id: string)
    requires id != op.id && id !in db.ops
    ensures id !in Route(db, unit, from, op, why).0.ops
  {}

  lemma ConcludeOwnEntry(db: Db, row: Result<StoredTrial, CaptureError>, unit: string, from: Sender, op: Op, id: string)
    requires id != op.id && id !in db.ops
    ensures id !in Conclude(db, row, unit, from, op).0.ops
  {
    RouteOwnEntry(db, unit, from, op, Diverged, id);
    assert forall d :: id !in Record(db, op, unit, d).ops;
  }

  lemma OnlyOwnEntry(meet: Meet, db: Db, unit: string, from: Sender, op: Op, id: string)
    requires id !in db.ops
    ensures id != op.id ==> id !in ReplayOne(meet, db, unit, from, op).0.ops
  {
    if id != op.id && op.id !in db.ops {
      match Decide(db, unit, from.stamp)
      case ApplyIt =>
        var (saved, row) := SaveFieldAttempt(meet, db, unit, op.input);
        SaveFrame(meet, db, unit, op.input);
        ConcludeOwnEntry(saved, row, unit, from, op, id);
      case RouteStartList => RouteOwnEntry(db, unit, from, op, StartListChange, id);
      case RouteStale => RouteOwnEntry(db, unit, from, op, StaleCheckout, id);
    }
  }

  // --- Over every run ---

  // Step i of the run decided the op, for a reason that still stands at the end.
  ghost predicate DecidedAt(meet: Meet, run: seq<Step>, i: nat, id: string) {
    && i < |run| && run[i].ReplayOp? && run[i].op.id == id
    && var before, after := Exec(meet, EMPTY_DB, run[..i]), Exec(meet, EMPTY_DB, run[..i + 1]);
       Accounted(meet, before, after, run[i].unit, run[i].from, run[i].op) && StillStands(after, Exec(meet, EMPTY_DB, run), id)
  }

  ghost predicate StillStands(after: Db, final: Db, id: string) {
    && id in after.ops && id in final.ops && final.ops[id] == after.ops[id]
    && ItemsPersist(after, final)
  }

  lemma LaterStepKeeps(meet: Meet, init: seq<Step>, s: Step, i: nat, id: string)
    requires DecidedAt(meet, init, i, id)
    ensures DecidedAt(meet, init + [s], i, id)
  {
    var run, last := init + [s], Exec(meet, EMPTY_DB, init);
    assert run[..|init|] == init && run[..i] == init[..i] && run[..i + 1] == init[..i + 1];
    AMO.LedgerKept(meet, last, s);
    StepPersists(meet, last, s);
  }

  lemma LastStepDecides(meet: Meet, init: seq<Step>, s: Step, id: string)
    requires meet.Valid()
    requires id !in Exec(meet, EMPTY_DB, init).ops && id in Exec(meet, EMPTY_DB, init + [s]).ops
    ensures DecidedAt(meet, init + [s], |init|, id)
  {
    var run := init + [s];
    assert run[..|init|] == init && run[..|init| + 1] == run;
    ReachedTrialsValid(meet, init);
    NewEntryAccounted(meet, Exec(meet, EMPTY_DB, init), s, id);
  }

  lemma ReachedTrialsValid(meet: Meet, run: seq<Step>)
    requires meet.Valid()
    ensures TrialsValid(meet, Exec(meet, EMPTY_DB, run))
  {
    EmptyInvariant(meet);
    RunKeepsInvariant(meet, EMPTY_DB, run);
  }

  // Every ledger entry of a reachable state was made by one replay step of the run, accounted
  // for there, and neither it nor its queue item was rewritten since.
  lemma {:induction false} LedgerAccounted(meet: Meet, run: seq<Step>, id: string) returns (i: nat)
    requires meet.Valid() && id in Exec(meet, EMPTY_DB, run).ops
    ensures DecidedAt(meet, run, i, id)
  {
    var init, s := run[..|run| - 1], run[|run| - 1];
    assert run == init + [s];
    if id in Exec(meet, EMPTY_DB, init).ops {
      i := LedgerAccounted(meet, init, id);
      LaterStepKeeps(meet, init, s, i, id);
    } else {
      i := |init|;
      LastStepDecides(meet, init, s, id);
    }
  }

  // A reconciled op has exactly one queue item in every reachable state, any other op none.
  lemma OneItemPerReconciledOp(meet: Meet, run: seq<Step>, id: string)
    ensures var final := Exec(meet, EMPTY_DB, run);
            ItemsOf(final.items, id) == if id in final.ops && final.ops[id].decision.Reconciled? then 1 else 0
  {
    assert QueueMatches(EMPTY_DB);
    RunMatches(meet, EMPTY_DB, run);
  }

  // In particular: the stored trial held the op's canonical value at some moment of the run.
  lemma AppliedWasStored(meet: Meet, run: seq<Step>, id: string) returns (i: nat)
    requires meet.Valid() && id in Exec(meet, EMPTY_DB, run).ops
    requires Exec(meet, EMPTY_DB, run).ops[id].decision.Applied?
    ensures i < |run| && run[i].ReplayOp? && run[i].op.id == id
    ensures var moment, op := Exec(meet, EMPTY_DB, run[..i + 1]), run[i].op;
            var cell := CellOf(run[i].unit, op.input);
            run[i].unit in meet.units && cell in moment.trials
            && Validated(op.input.attempt, meet.units[run[i].unit].windRelevant) == Some(AttemptAt(cell, moment.trials[cell]))
  {
    i := LedgerAccounted(meet, run, id);
  }
}
