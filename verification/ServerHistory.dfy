// What a client of the server object may rely on: every request leads to tables that follow the
// ones before it, and here is what following means for trials, ledger, queue, locks and results.
module ServerHistory {
  import opened Basics
  import opened Tables
  import opened Checkouts
  import opened Capture
  import opened Protocol
  import opened Staleness
  import opened Invariants
  import opened NothingLost
  import opened LiveTable
  import opened FieldRanking
  import opened AnnouncedResults
  import opened Corrections
  import opened CorrectedTable
  import opened ResultVersions
  import opened BarResults
  import opened ForceApply
  import opened CaptureServer
  import AMO = AtMostOnce

  // Nothing stored disappears: trials, results, ledger entries and queue items of db are there,
  // each as it was or moved on to a higher version or out of pending.
  ghost predicate Remembers(db: Db, next: Db) {
    && (forall cell <- db.trials ::
          cell in next.trials && (next.trials[cell] == db.trials[cell] || next.trials[cell].version > db.trials[cell].version))
    && ResultsEvolve(db, next) && ItemsPersist(db, next)
    && (forall id <- db.ops :: id in next.ops && next.ops[id] == db.ops[id])
  }

  // An announced unit stays announced and closed, and its table stands until it is posted again.
  ghost predicate KeepsAnnounced(meet: Meet, db: Db, next: Db) {
    forall unit: string | db.Announced(unit) ::
      && next.Announced(unit) && db.announcements[unit] <= next.announcements[unit] && SameTrials(db, next, unit)
      && (next.announcements[unit] == db.announcements[unit] ==>
            SameResults(db, next, unit) && TableOf(meet, next, unit) == TableOf(meet, db, unit))
  }

  // A stamp issued at db that does not apply any more never applies again.
  ghost predicate KeepsRevoked(db: Db, next: Db) {
    forall unit: string, stamp: Stamp | Issued(db, unit, stamp) && Decide(db, unit, stamp) != ApplyIt ::
      Decide(next, unit, stamp) != ApplyIt
  }

  lemma {:induction false} RunKeepsTrials(meet: Meet, db: Db, run: seq<Step>)
    ensures var next := Exec(meet, db, run);
            && (forall cell <- db.trials ::
                  cell in next.trials && (next.trials[cell] == db.trials[cell] || next.trials[cell].version > db.trials[cell].version))
            && (forall id <- db.ops :: id in next.ops && next.ops[id] == db.ops[id])
  {
    if run != [] {
      var before := Exec(meet, db, run[..|run| - 1]);
      RunKeepsTrials(meet, db, run[..|run| - 1]);
      AMO.TrialsEvolve(meet, before, run[|run| - 1]);
      AMO.LedgerKept(meet, before, run[|run| - 1]);
    }
  }

  lemma RunKeepsAnnounced(meet: Meet, db: Db, run: seq<Step>)
    ensures KeepsAnnounced(meet, db, Exec(meet, db, run))
  {
    var next := Exec(meet, db, run);
    forall unit: string | db.Announced(unit)
      ensures && next.Announced(unit) && db.announcements[unit] <= next.announcements[unit] && SameTrials(db, next, unit)
              && (next.announcements[unit] == db.announcements[unit] ==>
                    SameResults(db, next, unit) && TableOf(meet, next, unit) == TableOf(meet, db, unit))
    {
      AnnouncementsGrow(meet, db, run, unit);
      AnnouncedIsClosed(meet, db, run, unit);
      if next.announcements[unit] == db.announcements[unit] {
        FrozenBetweenAnnouncements(meet, db, run, unit);
        PostedTableStands(meet, db, run, unit);
      }
    }
  }

  // Between any two moments of a server, however many requests lie between them.
  lemma WhatFollows(meet: Meet, db: Db, next: Db)
    requires Follows(meet, db, next)
    ensures Remembers(db, next) && KeepsAnnounced(meet, db, next) && KeepsRevoked(db, next)
  {
    var run: seq<Step> :| next == Exec(meet, db, run);
    RunKeepsTrials(meet, db, run);
    RunEvolves(meet, db, run);
    RunPersists(meet, db, run);
    RunKeepsAnnounced(meet, db, run);
    forall unit: string, stamp: Stamp | Issued(db, unit, stamp) && Decide(db, unit, stamp) != ApplyIt
      ensures Decide(next, unit, stamp) != ApplyIt
    {
      InapplicableIsOutdated(db, unit, stamp);
      IssuedForGood(meet, db, run, unit, stamp);
      InapplicableIsOutdated(next, unit, stamp);
    }
  }

  // At every moment of a server that started empty: settled results agree with trials, and their
  // presence and status with bars, live tables are raw rankings, the queue matches the ledger,
  // every token was issued.
  lemma ServerIsConsistent(server: Server)
    requires server.meet.Valid() && Follows(server.meet, EMPTY_DB, server.State())
    ensures var meet, db := server.meet, server.State();
            && Invariant(meet, db) && AllShown(meet, db) && QueueMatches(db) && VersionsPositive(db) && TokensIssued(db)
            && forall unit: string | meet.IsUnit(unit, Horizontal) && !db.Announced(unit) ::
                 TableOf(meet, db, unit) == Map(PlainRow(), OfficialTable(StoredSeries(meet, db, unit)))
  {
    var meet, db := server.meet, server.State();
    var run: seq<Step> :| db == Exec(meet, EMPTY_DB, run);
    EmptyInvariant(meet);
    RunKeepsInvariant(meet, EMPTY_DB, run);
    ReachableBars(meet, run);
    assert QueueMatches(EMPTY_DB);
    RunMatches(meet, EMPTY_DB, run);
    RunVersions(meet, EMPTY_DB, run);
    RunIssues(meet, EMPTY_DB, run);
    forall unit: string | meet.IsUnit(unit, Horizontal) && !db.Announced(unit)
      ensures TableOf(meet, db, unit) == Map(PlainRow(), OfficialTable(StoredSeries(meet, db, unit)))
    {
      LiveTableIsRawRanking(meet, db, unit);
    }
  }

  lemma {:induction false} RunIssues(meet: Meet, db: Db, run: seq<Step>)
    requires TokensIssued(db)
    ensures TokensIssued(Exec(meet, db, run))
  {
    if run != [] {
      RunIssues(meet, db, run[..|run| - 1]);
      StepMovesLocks(meet, Exec(meet, db, run[..|run| - 1]), run[|run| - 1]);
    }
  }
}
