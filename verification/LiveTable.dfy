// The live table of a horizontal unit: ranked from the capture grid, reconciled with the
// settled results, which matters only once a correction has moved past the raw trials.
module LiveTable {
  import opened Basics
  import opened Vocabulary
  import opened FieldSeries
  import opened FieldRanking
  import opened Tables
  import opened Capture
  import opened Protocol
  import opened Invariants

  // One athlete's line of the grid; entry i is trial i + 1, if captured.
  datatype GridRow = GridRow(athlete: string, attempts: seq<Option<Attempt>>)

  datatype UnitRow = UnitRow(rank: nat, athlete: string, mark: string, status: Status, detail: string)

  // The field cut: after so many rounds, to so many athletes; 0 rounds is no cut.
  datatype Cut = Cut(after: int, to: int)

  type ResultMap = map<(string, string), Settled>

  function Taken(attempts: seq<Option<Attempt>>): seq<Attempt> {
    if attempts == [] then [] else
    var last := attempts[|attempts| - 1];
    Taken(attempts[..|attempts| - 1]) + if last.Some? then [last.value] else []
  }

  function RawSeries(row: GridRow): Series {
    Series(row.athlete, Taken(row.attempts))
  }

  // The status a settled correction puts in place of the raw one, if any.
  function StatusOverride(raw: Series, r: Option<Settled>): Option<Status> {
    if r.Some? && r.value.status != Unset && r.value.status != SeriesStatus(raw.attempts)
    then Some(r.value.status) else None
  }

  // What the row is ranked by: its trials, or what a correction left instead.
  function RankBasis(raw: Series, r: Option<Settled>): Series {
    if StatusOverride(raw, r).Some? then raw.(attempts := [])
    else if r.Some? && r.value.mark != "" && Best(raw.attempts) != Some(r.value.mark)
    then raw.(attempts := [Attempt(1, Valid, r.value.mark, None)])
    else raw
  }

  function ResultFor(results: ResultMap, unit: string, athlete: string): Option<Settled> {
    if (unit, athlete) in results then Some(results[(unit, athlete)]) else None
  }

  function BasisOf(results: ResultMap, unit: string): GridRow -> Series {
    (row: GridRow) => RankBasis(RawSeries(row), ResultFor(results, unit, row.athlete))
  }

  function OverrideOf(results: ResultMap, unit: string, row: GridRow): Option<Status> {
    StatusOverride(RawSeries(row), ResultFor(results, unit, row.athlete))
  }

  function Overrides(results: ResultMap, unit: string, rows: seq<GridRow>): map<string, Status> {
    if rows == [] then map[] else
    var row, init := rows[|rows| - 1], Overrides(results, unit, rows[..|rows| - 1]);
    var o := OverrideOf(results, unit, row);
    if o.Some? then init[row.athlete := o.value] else init
  }

  function RowFor(results: ResultMap, unit: string, overrides: map<string, Status>): Standing -> UnitRow {
    (st: Standing) => UnitRow(st.rank, st.athlete, st.best,
                  if st.athlete in overrides then overrides[st.athlete] else st.status,
                  if (unit, st.athlete) in results then results[(unit, st.athlete)].detail else "")
  }

  function ReconciledTable(results: ResultMap, unit: string, rows: seq<GridRow>): seq<UnitRow> {
    Map(RowFor(results, unit, Overrides(results, unit, rows)), OfficialTable(Map(BasisOf(results, unit), rows)))
  }

  predicate CutRoundComplete(rows: seq<GridRow>, cut: Cut) {
    cut.after > 0 && rows != [] && TakenAll(rows, |rows|, cut.after)
  }

  function Raw(): GridRow -> Series { (row: GridRow) => RawSeries(row) }

  method CollectTaken(attempts: seq<Option<Attempt>>) returns (out: seq<Attempt>)
    ensures out == Taken(attempts)
  {
    out := [];
    for i := 0 to |attempts|
      invariant out == Taken(attempts[..i])
    {
      assert attempts[..i + 1][..i] == attempts[..i];
      if attempts[i].Some? {
        out := out + [attempts[i].value];
      }
    }
    assert attempts[..|attempts|] == attempts;
  }

  // Compares one athlete's raw series with the settled result.
  method Reconcile(raw: Series, r: Option<Settled>) returns (basis: Series, override: Option<Status>)
    ensures basis == RankBasis(raw, r) && override == StatusOverride(raw, r)
  {
    basis, override := raw, None;
    if r.Some? {
      if r.value.status != Unset && r.value.status != SeriesStatus(raw.attempts) {
        basis, override := raw.(attempts := []), Some(r.value.status);
      } else if r.value.mark != "" && Best(raw.attempts) != Some(r.value.mark) {
        basis := raw.(attempts := [Attempt(1, Valid, r.value.mark, None)]);
      }
    }
  }

  // Walks the grid: the raw series, and whether every athlete has taken the pre-cut trials.
  method CollectSeries(rows: seq<GridRow>, cut: Cut) returns (series: seq<Series>, complete: bool)
    ensures series == Map(Raw(), rows)
    ensures complete <==> CutRoundComplete(rows, cut)
  {
    series, complete := [], cut.after > 0 && rows != [];
    for i := 0 to |rows|
      invariant |series| == i
      invariant forall k :: 0 <= k < i ==> series[k] == RawSeries(rows[k])
      invariant complete <==> cut.after > 0 && rows != [] && TakenAll(rows, i, cut.after)
    {
      var taken := CollectTaken(rows[i].attempts);
      complete := complete && |taken| >= cut.after;
      series := series + [Series(rows[i].athlete, taken)];
    }
  }

  // The ranking basis and the status overrides of the same rows.
  method ReconcileAll(results: ResultMap, unit: string, rows: seq<GridRow>, series: seq<Series>)
    returns (basis: seq<Series>, overrides: map<string, Status>)
    requires series == Map(Raw(), rows)
    ensures basis == Map(BasisOf(results, unit), rows)
    ensures overrides == Overrides(results, unit, rows)
  {
    basis, overrides := [], map[];
    for i := 0 to |rows|
      invariant |basis| == i
      invariant forall k :: 0 <= k < i ==> basis[k] == RankBasis(RawSeries(rows[k]), ResultFor(results, unit, rows[k].athlete))
      invariant overrides == Overrides(results, unit, rows[..i])
    {
      assert series[i] == RawSeries(rows[i]);
      OverridesNext(results, unit, rows, i);
      var basisRow, override := Reconcile(series[i], ResultFor(results, unit, rows[i].athlete));
      if override.Some? {
        overrides := overrides[rows[i].athlete := override.value];
      }
      basis := basis + [basisRow];
    }
    assert rows[..|rows|] == rows;
  }

  lemma OverridesNext(results: ResultMap, unit: string, rows: seq<GridRow>, i: nat)
    requires i < |rows|
    ensures var init, o := Overrides(results, unit, rows[..i]), OverrideOf(results, unit, rows[i]);
            Overrides(results, unit, rows[..i + 1]) == if o.Some? then init[rows[i].athlete := o.value] else init
  {
    assert rows[..i + 1][..i] == rows[..i] && rows[..i + 1][i] == rows[i];
  }

  predicate TakenAll(rows: seq<GridRow>, n: nat, after: int)
    requires n <= |rows|
  {
    forall k :: 0 <= k < n ==> |Taken(rows[k].attempts)| >= after
  }

  method FieldStandings(results: ResultMap, unit: string, rows: seq<GridRow>, cut: Cut)
    returns (table: seq<UnitRow>, continuation: seq<string>)
    ensures table == ReconciledTable(results, unit, rows)
    ensures if CutRoundComplete(rows, cut)
            then DistinctAthletes(Map(Raw(), rows)) ==> CompetingOrder(Map(Raw(), rows), cut.to, continuation)
            else continuation == []
  {
    var series, complete := CollectSeries(rows, cut);
    var basis, overrides := ReconcileAll(results, unit, rows, series);
    var ranked := RankFieldSeries(basis);
    table := ShowRows(results, unit, overrides, ranked);
    continuation := [];
    if complete {
      continuation := FieldContinuation(series, cut.to);
    }
  }

  method ShowRows(results: ResultMap, unit: string, overrides: map<string, Status>, ranked: seq<Standing>)
    returns (table: seq<UnitRow>)
    ensures table == Map(RowFor(results, unit, overrides), ranked)
  {
    table := [];
    for i := 0 to |ranked|
      invariant |table| == i
      invariant forall k :: 0 <= k < i ==> table[k] == RowFor(results, unit, overrides)(ranked[k])
    {
      var st := ranked[i];
      var status := if st.athlete in overrides then overrides[st.athlete] else st.status;
      var detail := if (unit, st.athlete) in results then results[(unit, st.athlete)].detail else "";
      table := table + [UnitRow(st.rank, st.athlete, st.best, status, detail)];
    }
  }

  // --- The grid of a unit ---

  function GridCells(trials: map<Cell, StoredTrial>, unit: string, athlete: string, n: nat): seq<Option<Attempt>> {
    if n == 0 then [] else
    var cell := Cell(unit, athlete, n);
    GridCells(trials, unit, athlete, n - 1)
    + [if cell in trials then Some(AttemptAt(cell, trials[cell])) else None]
  }

  function GridFor(meet: Meet, trials: map<Cell, StoredTrial>, unit: string): string -> GridRow {
    athlete => GridRow(athlete, GridCells(trials, unit, athlete, SeriesLength(meet, unit)))
  }

  function Grid(meet: Meet, db: Db, unit: string): seq<GridRow> {
    Map(GridFor(meet, db.trials, unit), meet.roster)
  }

  lemma {:induction false} GridTakesSeries(trials: map<Cell, StoredTrial>, unit: string, athlete: string, n: nat)
    ensures Taken(GridCells(trials, unit, athlete, n)) == SeriesUpTo(trials, unit, athlete, n)
  {
    if n > 0 {
      GridTakesSeries(trials, unit, athlete, n - 1);
      var cells := GridCells(trials, unit, athlete, n);
      assert cells[..|cells| - 1] == GridCells(trials, unit, athlete, n - 1);
    }
  }

  // The stored trials of the roster, as series.
  function SeriesFor(meet: Meet, trials: map<Cell, StoredTrial>, unit: string): string -> Series {
    athlete => Series(athlete, SeriesOf(meet, trials, unit, athlete))
  }

  function StoredSeries(meet: Meet, db: Db, unit: string): seq<Series> {
    Map(SeriesFor(meet, db.trials, unit), meet.roster)
  }

  // The cut round is over once everyone on the roster has so many trials stored.
  lemma CutExactly(meet: Meet, db: Db, unit: string, cut: Cut)
    ensures CutRoundComplete(Grid(meet, db, unit), cut) <==>
              cut.after > 0 && meet.roster != []
              && forall i :: 0 <= i < |meet.roster| ==> |SeriesOf(meet, db.trials, unit, meet.roster[i])| >= cut.after
  {
    var rows := Grid(meet, db, unit);
    forall i | 0 <= i < |meet.roster|
      ensures Taken(rows[i].attempts) == SeriesOf(meet, db.trials, unit, meet.roster[i])
    {
      GridTakesSeries(db.trials, unit, meet.roster[i], SeriesLength(meet, unit));
    }
  }

  // Where results agree with trials, reconciling changes nothing.
  lemma AgreementIsIdentity(meet: Meet, db: Db, unit: string, athlete: string)
    requires SettledAgrees(meet, db, unit, athlete)
    ensures var raw, r := SeriesFor(meet, db.trials, unit)(athlete), ResultFor(db.results, unit, athlete);
            RankBasis(raw, r) == raw && StatusOverride(raw, r).None? && (r.Some? ==> r.value.detail == "")
  {
    var series := SeriesOf(meet, db.trials, unit, athlete);
    if series == [] {
      assert ResultFor(db.results, unit, athlete).None?;
    } else {
      var r := db.results[(unit, athlete)];
      assert r.(version := 0) == SettledFrom(series);
      assert r.status == SettledFrom(series).status && r.mark == SettledFrom(series).mark
             && r.detail == SettledFrom(series).detail;
    }
  }

  lemma {:induction false} NoOverrides(meet: Meet, db: Db, unit: string, roster: seq<string>)
    requires forall athlete: string :: SettledAgrees(meet, db, unit, athlete)
    ensures Overrides(db.results, unit, Map(GridFor(meet, db.trials, unit), roster)) == map[]
  {
    if roster != [] {
      var n, athlete := |roster| - 1, roster[|roster| - 1];
      var rows := Map(GridFor(meet, db.trials, unit), roster);
      NoOverrides(meet, db, unit, roster[..n]);
      assert rows[..n] == Map(GridFor(meet, db.trials, unit), roster[..n]);
      GridTakesSeries(db.trials, unit, athlete, SeriesLength(meet, unit));
      AgreementIsIdentity(meet, db, unit, athlete);
    }
  }

  // A line of the live table without corrections: the official line of the stored trials.
  function PlainRow(): Standing -> UnitRow {
    (st: Standing) => UnitRow(st.rank, st.athlete, st.best, st.status, "")
  }

  // In every reachable state, the live table of an unannounced unit is the official ranking
  // of the stored trials: the reconciliation with settled results is the identity.
  lemma LiveTableIsRawRanking(meet: Meet, db: Db, unit: string)
    requires Invariant(meet, db) && meet.IsUnit(unit, Horizontal) && !db.Announced(unit)
    ensures ReconciledTable(db.results, unit, Grid(meet, db, unit))
            == Map(PlainRow(), OfficialTable(StoredSeries(meet, db, unit)))
  {
    var rows, basis := Grid(meet, db, unit), Map(BasisOf(db.results, unit), Grid(meet, db, unit));
    forall athlete: string ensures SettledAgrees(meet, db, unit, athlete) {}
    NoOverrides(meet, db, unit, meet.roster);
    forall i | 0 <= i < |rows| ensures basis[i] == StoredSeries(meet, db, unit)[i] {
      GridTakesSeries(db.trials, unit, meet.roster[i], SeriesLength(meet, unit));
      AgreementIsIdentity(meet, db, unit, meet.roster[i]);
    }
    assert basis == StoredSeries(meet, db, unit);
    NoDetails(meet, db, unit, OfficialTable(basis));
  }

  lemma NoDetails(meet: Meet, db: Db, unit: string, table: seq<Standing>)
    requires forall athlete: string :: SettledAgrees(meet, db, unit, athlete)
    ensures Map(RowFor(db.results, unit, map[]), table) == Map(PlainRow(), table)
  {
    forall i | 0 <= i < |table|
      ensures Map(RowFor(db.results, unit, map[]), table)[i] == Map(PlainRow(), table)[i]
    {
      AgreementIsIdentity(meet, db, unit, table[i].athlete);
    }
  }

  lemma ReachableLiveTable(meet: Meet, run: seq<Step>, unit: string)
    requires meet.Valid() && meet.IsUnit(unit, Horizontal)
    requires !Exec(meet, EMPTY_DB, run).Announced(unit)
    ensures var db := Exec(meet, EMPTY_DB, run);
            && ReconciledTable(db.results, unit, Grid(meet, db, unit))
               == Map(PlainRow(), OfficialTable(StoredSeries(meet, db, unit)))
            && forall athlete: string :: SettledAgrees(meet, db, unit, athlete)
  {
    EmptyInvariant(meet);
    RunKeepsInvariant(meet, EMPTY_DB, run);
    LiveTableIsRawRanking(meet, Exec(meet, EMPTY_DB, run), unit);
  }
}
