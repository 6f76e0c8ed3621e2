// Where each row of a timing file goes: to the result its numbers and bib name, or into the queue
// for the one reason that stands against it.
module TimingRows {
  import opened Basics
  import opened Vocabulary
  import opened Tables
  import opened Capture
  import opened RecordedRows
  import opened TimingQueue
  import R = Results

  predicate KnowsUnit(meet: Meet, row: TimingRow) { (row.event, row.round, row.heat) in meet.numbers }

  predicate KnowsBib(meet: Meet, row: TimingRow) { row.bib in meet.bibs && meet.bibs[row.bib] != "" }

  // The result a row names.
  function Named(meet: Meet, row: TimingRow): (string, string)
    requires KnowsUnit(meet, row) && KnowsBib(meet, row)
  {
    (meet.numbers[(row.event, row.round, row.heat)], meet.bibs[row.bib])
  }

  // An operator entered it, and it is not blank.
  predicate EnteredByHand(db: Db, key: (string, string)) {
    key in db.results && db.results[key].source == Operator
    && (db.results[key].mark != "" || db.results[key].status != Unset)
  }

  // What stands against writing a row, first things first.
  predicate StandsAgainst(meet: Meet, db: Db, row: TimingRow, reason: ConflictReason) {
    match reason
    case UnresolvedUnit => !KnowsUnit(meet, row)
    case UnknownBib => KnowsUnit(meet, row) && !KnowsBib(meet, row)
    case UnmappedStatus => KnowsUnit(meet, row) && KnowsBib(meet, row) && row.unmapped
    case UnitAnnounced =>
      KnowsUnit(meet, row) && KnowsBib(meet, row) && !row.unmapped && db.Announced(Named(meet, row).0)
    case ExistingManualResult =>
      && KnowsUnit(meet, row) && KnowsBib(meet, row) && !row.unmapped && !db.Announced(Named(meet, row).0)
      && EnteredByHand(db, Named(meet, row))
  }

  // Nothing does.
  predicate Free(meet: Meet, db: Db, row: TimingRow) {
    && KnowsUnit(meet, row) && KnowsBib(meet, row) && !row.unmapped
    && !db.Announced(Named(meet, row).0) && !EnteredByHand(db, Named(meet, row))
  }

  // The row is written to the result it names, and nothing else is different.
  ghost predicate GoesToResult(meet: Meet, db: Db, next: Db, row: TimingRow, source: Source) {
    && Free(meet, db, row) && next == db.(results := next.results)
    && var key := Named(meet, row);
       key in next.results && Stores(db, next, key.0, key.1, next.results[key]) && HoldsRow(next.results[key], row, source)
  }

  // The row is queued once, with what is known of where it leads and the reason that stands against
  // it, and nothing else is different.
  ghost predicate GoesToQueue(meet: Meet, db: Db, next: Db, row: TimingRow, source: Source) {
    && |next.conflicts| == |db.conflicts| + 1 && next == db.(conflicts := db.conflicts + [next.conflicts[|db.conflicts|]])
    && var c := next.conflicts[|db.conflicts|];
       && c.row == row && c.source == source && c.status.Open? && StandsAgainst(meet, db, row, c.reason)
       && c.unit == (if KnowsUnit(meet, row) then Some(meet.numbers[(row.event, row.round, row.heat)]) else None)
       && c.athlete == if KnowsUnit(meet, row) && KnowsBib(meet, row) then Some(meet.bibs[row.bib]) else None
  }

  // Blank rows are skipped, rows nothing stands against are written, the others queued.
  ghost predicate Fate(meet: Meet, db: Db, next: Db, row: TimingRow, source: Source) {
    if row.blank then next == db
    else if Free(meet, db, row) then GoesToResult(meet, db, next, row, source)
    else GoesToQueue(meet, db, next, row, source)
  }

  // Exactly one reason stands against a row that is not free.
  lemma OneReason(meet: Meet, db: Db, row: TimingRow, a: ConflictReason, b: ConflictReason)
    ensures Free(meet, db, row) ==> !StandsAgainst(meet, db, row, a)
    ensures StandsAgainst(meet, db, row, a) && StandsAgainst(meet, db, row, b) ==> a == b
  {}

  lemma OthersQueue(meet: Meet, db: Db, row: TimingRow, source: Source)
    requires !row.blank && !Free(meet, db, row)
    ensures var (next, outcome) := R.ImportRow(meet, db, row, source);
            outcome == Ok(R.Queued) && GoesToQueue(meet, db, next, row, source)
  {
    var (next, outcome) := R.ImportRow(meet, db, row, source);
    var t := R.Resolved(meet, db, row);
    assert outcome == Ok(R.Queued);
    assert next == R.Queue(db, t.unit, t.athlete, if t.reason.Some? then t.reason.value else UnknownBib, row, source);
  }

  lemma FreeIsTried(meet: Meet, db: Db, row: TimingRow, source: Source)
    requires !row.blank && Free(meet, db, row)
    ensures var (next, outcome) := R.ImportRow(meet, db, row, source);
            var (unit, athlete) := Named(meet, row);
            var (written, done) := R.ApplyTimingRow(meet, db, unit, athlete, row, source);
            next == written && outcome == if done.Ok? then Ok(R.Written) else Err(done.error)
  {}

  // The free row can be written where it leads.
  predicate Takes(meet: Meet, db: Db, row: TimingRow) {
    && Free(meet, db, row) && Named(meet, row).0 in meet.units
    && RowWritable(meet, Named(meet, row).0, Named(meet, row).1, row)
  }

  // A row meets its fate, and what is reported is what happened; only a free row that cannot be
  // written is an error, and that changes nothing.
  lemma RowGoesWhereItSays(meet: Meet, db: Db, row: TimingRow, source: Source)
    ensures var (next, outcome) := R.ImportRow(meet, db, row, source);
            && (outcome.Ok? ==> Fate(meet, db, next, row, source))
            && (outcome == Ok(R.Skipped) <==> row.blank)
            && (outcome == Ok(R.Queued) <==> !row.blank && !Free(meet, db, row))
            && (outcome == Ok(R.Written) <==> !row.blank && Takes(meet, db, row))
            && (outcome.Err? ==> next == db)
  {
    if !row.blank {
      if Free(meet, db, row) {
        var (unit, athlete) := Named(meet, row);
        FreeIsTried(meet, db, row, source);
        RowStores(meet, db, unit, athlete, row, source);
        TimingRowExactly(meet, db, unit, athlete, row, source);
      } else {
        OthersQueue(meet, db, row, source);
      }
    }
  }

  // The tables before row i of a file.
  function Before(meet: Meet, db: Db, rows: seq<TimingRow>, source: Source, i: nat): Db
    requires i <= |rows|
  {
    R.ImportRows(meet, db, rows[..i], source).0
  }

  // A successful import takes the rows one after the other, each to its fate.
  lemma {:induction false} FileGoesWhereItSays(meet: Meet, db: Db, rows: seq<TimingRow>, source: Source, i: nat)
    requires i < |rows| && R.ImportRows(meet, db, rows, source).1.Ok?
    ensures Before(meet, db, rows, source, 0) == db
    ensures Before(meet, db, rows, source, |rows|) == R.ImportRows(meet, db, rows, source).0
    ensures Fate(meet, Before(meet, db, rows, source, i), Before(meet, db, rows, source, i + 1), rows[i], source)
  {
    var n := |rows| - 1;
    assert rows[..0] == [] && rows[..|rows|] == rows;
    if i == n {
      RowGoesWhereItSays(meet, Before(meet, db, rows, source, n), rows[n], source);
    } else {
      FileGoesWhereItSays(meet, db, rows[..n], source, i);
      assert rows[..n][..i] == rows[..i] && rows[..n][..i + 1] == rows[..i + 1];
    }
  }

  ghost predicate NamedBy(meet: Meet, rows: seq<TimingRow>, key: (string, string)) {
    exists row <- rows :: !row.blank && KnowsUnit(meet, row) && KnowsBib(meet, row) && Named(meet, row) == key
  }

  // However it ends, an import leaves every result no row names as it was.
  lemma {:induction false} OnlyNamedResults(meet: Meet, db: Db, rows: seq<TimingRow>, source: Source, key: (string, string))
    requires !NamedBy(meet, rows, key)
    ensures var next := R.ImportRows(meet, db, rows, source).0;
            (key in next.results <==> key in db.results) && (key in db.results ==> next.results[key] == db.results[key])
  {
    if rows != [] {
      var init, last := rows[..|rows| - 1], rows[|rows| - 1];
      assert rows == init + [last] && last in rows;
      OnlyNamedResults(meet, db, init, source, key);
      RowGoesWhereItSays(meet, R.ImportRows(meet, db, init, source).0, last, source);
    }
  }
}
