// Capturing one field trial: the versioned trial row and the settled result derived from the
// athlete's whole series, in one transaction.
module Capture {
  import opened Basics
  import opened FieldSeries
  import opened Tables

  datatype CaptureError =
    | NoSuchUnit | WrongFamily | NotRegistered | BadValue | Announced | TrialMissing | Unrated
    | VersionConflict(current: StoredTrial)

  // One trial as captured; expected is the version the form was rendered from, 0 for a new one.
  datatype Input = Input(athlete: string, attempt: Attempt, expected: int)

  function Stored(a: Attempt, version: int): StoredTrial {
    StoredTrial(a.kind, a.mark, a.wind, version)
  }

  // expected 0 inserts, a positive value re-captures that version; anything else conflicts.
  function SaveTrial(trials: map<Cell, StoredTrial>, cell: Cell, a: Attempt, expected: int)
    : Result<StoredTrial, CaptureError>
  {
    if expected > 0 then
      if cell !in trials then Err(TrialMissing)
      else if trials[cell].version != expected then Err(VersionConflict(trials[cell]))
      else Ok(Stored(a, expected + 1))
    else if cell in trials then Err(VersionConflict(trials[cell]))
    else Ok(Stored(a, 1))
  }

  // The stored trials of one athlete in trial order, up to trial n.
  function SeriesUpTo(trials: map<Cell, StoredTrial>, unit: string, athlete: string, n: nat): seq<Attempt> {
    if n == 0 then [] else
    var cell := Cell(unit, athlete, n);
    SeriesUpTo(trials, unit, athlete, n - 1)
    + if cell in trials then [Attempt(n, trials[cell].kind, trials[cell].mark, trials[cell].wind)] else []
  }

  function SeriesLength(meet: Meet, unit: string): nat {
    if unit in meet.units && meet.units[unit].trials > 0 then meet.units[unit].trials else 0
  }

  function SeriesOf(meet: Meet, trials: map<Cell, StoredTrial>, unit: string, athlete: string): seq<Attempt> {
    SeriesUpTo(trials, unit, athlete, SeriesLength(meet, unit))
  }

  // Settling inserts or replaces the athlete's result row, bumping its version.
  function Upsert(results: map<(string, string), Settled>, unit: string, athlete: string, r: Settled)
    : map<(string, string), Settled>
  {
    var key := (unit, athlete);
    results[key := r.(version := if key in results then results[key].version + 1 else 1)]
  }

  function SettledFrom(series: seq<Attempt>): Settled {
    var best := Best(series);
    Settled(if best.Some? then best.value else "", NoTiming, SeriesStatus(series), "", Operator, 0)
  }

  // What capture checks before it opens a transaction; the trial comes out canonical.
  function Checked(meet: Meet, db: Db, unit: string, input: Input): Result<Attempt, CaptureError> {
    if unit !in meet.units then Err(NoSuchUnit)
    else if meet.units[unit].family != Horizontal then Err(WrongFamily)
    else if input.athlete !in meet.roster then Err(NotRegistered)
    else
      var a := Validated(input.attempt, meet.units[unit].windRelevant);
      if a.None? || a.value.trial > meet.units[unit].trials then Err(BadValue)
      else if db.Announced(unit) then Err(Announced)
      else Ok(a.value)
  }

  function CellOf(unit: string, input: Input): Cell {
    Cell(unit, input.athlete, input.attempt.trial)
  }

  function SeriesAfter(meet: Meet, db: Db, unit: string, input: Input, row: StoredTrial): seq<Attempt> {
    SeriesOf(meet, db.trials[CellOf(unit, input) := row], unit, input.athlete)
  }

  // The best mark of the series, if it has one, can be scored and held against records.
  predicate Ratable(meet: Meet, unit: string, athlete: string, series: seq<Attempt>) {
    var best := Best(series);
    best.Some? ==> meet.Rates(unit, athlete, NoTiming, best.value)
  }

  function WriteTrial(meet: Meet, db: Db, unit: string, input: Input, row: StoredTrial): Db {
    var trials := db.trials[CellOf(unit, input) := row];
    var settled := SettledFrom(SeriesOf(meet, trials, unit, input.athlete));
    db.(trials := trials, results := Upsert(db.results, unit, input.athlete, settled))
  }

  function SaveFieldAttempt(meet: Meet, db: Db, unit: string, input: Input): (Db, Result<StoredTrial, CaptureError>) {
    var a := Checked(meet, db, unit, input);
    if a.Err? then (db, Err(a.error)) else SaveChecked(meet, db, unit, input, a.value)
  }

  // The transaction of a capture: the trial is saved and its series settled, or neither.
  function SaveChecked(meet: Meet, db: Db, unit: string, input: Input, a: Attempt)
    : (Db, Result<StoredTrial, CaptureError>)
  {
    var row := SaveTrial(db.trials, CellOf(unit, input), a, input.expected);
    if row.Err? then (db, row)
    else if !Ratable(meet, unit, input.athlete, SeriesAfter(meet, db, unit, input, row.value)) then (db, Err(Unrated))
    else (WriteTrial(meet, db, unit, input, row.value), row)
  }

  function CurrentVersion(trials: map<Cell, StoredTrial>, cell: Cell): int {
    if cell in trials then trials[cell].version else 0
  }
}
