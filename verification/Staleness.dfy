// Generations and start-list versions only grow, every change of holder, device or liveness
// reissues the token, and so a stamp that stops being applicable never applies again.
module Staleness {
  import opened Basics
  import opened Tables
  import opened Checkouts
  import opened Capture
  import opened Replay
  import opened Protocol

  // --- One step ---

  // How one lock row may move while tokens below issued are already known.
  ghost predicate LockMoves(was: Checkout, now: Checkout, issued: nat) {
    && (now.generation == was.generation || now.generation == was.generation + 1)
    && (now.startList == was.startList || now.startList == was.startList + 1)
    && (now.generation == was.generation ==>
          now.account == was.account && now.device == was.device && now.token == was.token
          && (now.active ==> was.active))
    && (now.generation != was.generation ==> now.active && now.token >= issued)
  }

  ghost predicate FirstLock(now: Checkout, issued: nat) {
    now.generation == 1 && now.startList == 0 && now.active && now.token >= issued
  }

  ghost predicate LocksMove(db: Db, next: Db) {
    && next.nextToken >= db.nextToken
    && (forall u <- next.checkouts ::
          if u in db.checkouts then LockMoves(db.checkouts[u], next.checkouts[u], db.nextToken)
          else FirstLock(next.checkouts[u], db.nextToken))
    && (forall u <- db.checkouts :: u in next.checkouts)
  }

  // Every issued token lies below the counter.
  ghost predicate TokensIssued(db: Db) {
    forall u <- db.checkouts :: db.checkouts[u].token < db.nextToken
  }

  // Replacing one unit's row, possibly issuing its token.
  lemma PutMoves(db: Db, next: Db, unit: string, c: Checkout)
    requires next.checkouts == db.checkouts[unit := c] && next.nextToken >= db.nextToken
    requires if unit in db.checkouts then LockMoves(db.checkouts[unit], c, db.nextToken) else FirstLock(c, db.nextToken)
    requires TokensIssued(db) ==> c.token < next.nextToken
    ensures LocksMove(db, next) && (TokensIssued(db) ==> TokensIssued(next))
  {}

  lemma ReassignMoves(db: Db, unit: string, account: string, device: string)
    requires unit in db.checkouts
    ensures var next := Reassign(db, unit, account, device).0;
            LocksMove(db, next) && (TokensIssued(db) ==> TokensIssued(next))
  {
    var (next, c) := Reassign(db, unit, account, device);
    PutMoves(db, next, unit, c.value);
  }

  lemma CreateMoves(db: Db, unit: string, account: string, device: string)
    requires unit !in db.checkouts
    ensures var next := CreateCheckout(db, unit, account, device).0;
            LocksMove(db, next) && (TokensIssued(db) ==> TokensIssued(next))
  {
    var (next, c) := CreateCheckout(db, unit, account, device);
    if c.Ok? { PutMoves(db, next, unit, c.value); }
  }

  lemma ReviseMoves(meet: Meet, db: Db, unit: string)
    ensures var next := ReviseStartList(meet, db, unit).0;
            LocksMove(db, next) && (TokensIssued(db) ==> TokensIssued(next))
  {
    var (next, c) := ReviseStartList(meet, db, unit);
    if c.Ok? { PutMoves(db, next, unit, c.value); }
  }

  lemma ReleaseMoves(meet: Meet, db: Db, unit: string)
    ensures var next := ReleaseCheckout(meet, db, unit).0;
            LocksMove(db, next) && (TokensIssued(db) ==> TokensIssued(next))
  {
    var (next, c) := ReleaseCheckout(meet, db, unit);
    if c.Ok? { PutMoves(db, next, unit, c.value); }
  }

  lemma LockStepMoves(meet: Meet, db: Db, s: Step)
    ensures var next := LockStep(meet, db, s);
            LocksMove(db, next) && (TokensIssued(db) ==> TokensIssued(next))
  {
    match s
    case Ensure(account, unit, device) =>
      if unit !in db.checkouts { CreateMoves(db, unit, account, device); }
    case TakeLock(account, unit, device) =>
      if unit in db.checkouts { ReassignMoves(db, unit, account, device); }
      else { CreateMoves(db, unit, account, device); }
    case Override(account, unit, device) =>
      if unit in db.checkouts { ReassignMoves(db, unit, account, device); }
    case Revise(unit) => ReviseMoves(meet, db, unit);
    case Release(unit) => ReleaseMoves(meet, db, unit);
    case _ =>
  }

  lemma WriteKeepsLocks(meet: Meet, db: Db, write: Option<(string, Input)>)
    ensures AfterWrite(meet, db, write).checkouts == db.checkouts
    ensures AfterWrite(meet, db, write).nextToken == db.nextToken
  {}

  // Locks never disappear, numbers never fall, and each change of holder or device and each
  // re-take of a released lock raises the generation by one under a fresh token.
  lemma StepMovesLocks(meet: Meet, db: Db, s: Step)
    ensures var next := Apply(meet, db, s);
            LocksMove(db, next) && (TokensIssued(db) ==> TokensIssued(next))
  {
    if IsLockStep(s) {
      LockStepMoves(meet, db, s);
    } else if IsCaptureStep(s) {
      CaptureStepFrame(meet, db, s);
      WriteKeepsLocks(meet, db, TrialWrite(meet, db, s));
    } else {
      ResultStepFrame(meet, db, s);
    }
  }

  // --- Runs ---

  // What a later state still knows about a stamp issued earlier.
  ghost predicate Issued(db: Db, unit: string, stamp: Stamp) {
    && unit in db.checkouts
    && var c := db.checkouts[unit];
       && stamp.generation <= c.generation && stamp.startList <= c.startList
       && (c.generation == stamp.generation ==> c.token == stamp.token)
  }

  ghost predicate Outdated(db: Db, unit: string, stamp: Stamp) {
    && unit in db.checkouts
    && var c := db.checkouts[unit];
       stamp.generation < c.generation || stamp.startList < c.startList || !c.active
  }

  lemma {:induction false} IssuedForGood(meet: Meet, db: Db, run: seq<Step>, unit: string, stamp: Stamp)
    requires Issued(db, unit, stamp)
    ensures Issued(Exec(meet, db, run), unit, stamp)
    ensures Outdated(db, unit, stamp) ==> Outdated(Exec(meet, db, run), unit, stamp)
  {
    if run != [] {
      IssuedForGood(meet, db, run[..|run| - 1], unit, stamp);
      StepMovesLocks(meet, Exec(meet, db, run[..|run| - 1]), run[|run| - 1]);
    }
  }

  lemma InapplicableIsOutdated(db: Db, unit: string, stamp: Stamp)
    requires Issued(db, unit, stamp)
    ensures Decide(db, unit, stamp) != ApplyIt <==> Outdated(db, unit, stamp)
  {}

  // A stamp issued at db that no longer applies after the run `until` applies after no
  // continuation `later`, and replaying any op under it then writes no trial.
  lemma StalenessIsPermanent(meet: Meet, db: Db, until: seq<Step>, later: seq<Step>, unit: string, from: Sender, op: Op)
    requires unit in db.checkouts && from.stamp == StampOf(db.checkouts[unit])
    requires Decide(Exec(meet, db, until), unit, from.stamp) != ApplyIt
    ensures var final := Exec(meet, Exec(meet, db, until), later);
            && Decide(final, unit, from.stamp) != ApplyIt
            && ReplayOne(meet, final, unit, from, op).0.trials == final.trials
            && ReplayCut(meet, final, unit, from, op).trials == final.trials
  {
    IssuedForGood(meet, db, until, unit, from.stamp);
    InapplicableIsOutdated(Exec(meet, db, until), unit, from.stamp);
    IssuedForGood(meet, Exec(meet, db, until), later, unit, from.stamp);
    var final := Exec(meet, Exec(meet, db, until), later);
    InapplicableIsOutdated(final, unit, from.stamp);
    ReplayFrame(meet, final, unit, from, op);
  }

  // Since db, the generation moved exactly when the token was reissued; while it stands,
  // holder and device stand too.
  lemma {:induction false} TokenNamesGeneration(meet: Meet, db: Db, run: seq<Step>, unit: string)
    requires TokensIssued(db) && unit in db.checkouts
    ensures var next := Exec(meet, db, run);
            && TokensIssued(next) && unit in next.checkouts && db.nextToken <= next.nextToken
            && var was, now := db.checkouts[unit], next.checkouts[unit];
               if now.generation == was.generation
               then now.token == was.token && now.account == was.account && now.device == was.device
               else now.generation > was.generation && now.token >= db.nextToken > was.token
  {
    if run != [] {
      TokenNamesGeneration(meet, db, run[..|run| - 1], unit);
      StepMovesLocks(meet, Exec(meet, db, run[..|run| - 1]), run[|run| - 1]);
    }
  }
}
