// The table of a unit after a correction: line by line what each athlete is ranked by, the
// corrected athlete by the correction alone, until the list is posted again.
module CorrectedTable {
  import opened Basics
  import opened Sorting
  import opened Marks
  import opened Vocabulary
  import opened FieldSeries
  import opened FieldRanking
  import opened Tables
  import opened Capture
  import opened Protocol
  import opened LiveTable
  import opened AnnouncedResults
  import opened Corrections
  import R = Results

  function TableOf(meet: Meet, db: Db, unit: string): seq<UnitRow> {
    ReconciledTable(db.results, unit, Grid(meet, db, unit))
  }

  // What the unit's athletes are ranked by, in roster order.
  function Bases(meet: Meet, db: Db, unit: string): seq<Series> {
    Map(BasisOf(db.results, unit), Grid(meet, db, unit))
  }

  function RawOf(meet: Meet, db: Db, unit: string, athlete: string): Series {
    Series(athlete, SeriesOf(meet, db.trials, unit, athlete))
  }

  function BasisFor(meet: Meet, db: Db, unit: string, athlete: string): Series {
    RankBasis(RawOf(meet, db, unit, athlete), ResultFor(db.results, unit, athlete))
  }

  function OverrideFor(meet: Meet, db: Db, unit: string, athlete: string): Option<Status> {
    StatusOverride(RawOf(meet, db, unit, athlete), ResultFor(db.results, unit, athlete))
  }

  // One athlete's line, from nothing but the athlete's own trials and settled row, placed
  // among the bases of all.
  function LineFor(meet: Meet, db: Db, unit: string, bases: seq<Series>, athlete: string): UnitRow {
    var r, override := ResultFor(db.results, unit, athlete), OverrideFor(meet, db, unit, athlete);
    var st := StandingOf(bases, BasisFor(meet, db, unit, athlete));
    UnitRow(st.rank, athlete, st.best, if override.Some? then override.value else st.status,
            if r.Some? then r.value.detail else "")
  }

  function LineOf(meet: Meet, db: Db, unit: string): string -> UnitRow {
    (athlete: string) => LineFor(meet, db, unit, Bases(meet, db, unit), athlete)
  }

  lemma GridRowReconciled(meet: Meet, db: Db, unit: string, athlete: string)
    ensures var row := GridFor(meet, db.trials, unit)(athlete);
            && row.athlete == athlete && BasisOf(db.results, unit)(row) == BasisFor(meet, db, unit, athlete)
            && OverrideOf(db.results, unit, row) == OverrideFor(meet, db, unit, athlete)
  {
    GridTakesSeries(db.trials, unit, athlete, SeriesLength(meet, unit));
  }

  // Rows of the same athlete agree, so the athlete's override is theirs.
  lemma {:induction false} OverridesOf(results: ResultMap, unit: string, rows: seq<GridRow>, athlete: string, own: Option<Status>)
    requires forall row <- rows :: row.athlete == athlete ==> OverrideOf(results, unit, row) == own
    ensures var all := Overrides(results, unit, rows);
            && (athlete in all <==> own.Some? && exists row <- rows :: row.athlete == athlete)
            && (athlete in all ==> all[athlete] == own.value)
  {
    if rows != [] {
      var init, last := rows[..|rows| - 1], rows[|rows| - 1];
      assert rows == init + [last];
      OverridesOf(results, unit, init, athlete, own);
    }
  }

  lemma OverridesMeaning(meet: Meet, db: Db, unit: string, athlete: string)
    requires athlete in meet.roster
    ensures var all, own := Overrides(db.results, unit, Grid(meet, db, unit)), OverrideFor(meet, db, unit, athlete);
            (athlete in all <==> own.Some?) && (own.Some? ==> all[athlete] == own.value)
  {
    var rows, own := Grid(meet, db, unit), OverrideFor(meet, db, unit, athlete);
    forall row <- rows | row.athlete == athlete ensures OverrideOf(db.results, unit, row) == own {
      var i :| 0 <= i < |rows| && rows[i] == row;
      GridRowReconciled(meet, db, unit, meet.roster[i]);
    }
    OverridesOf(db.results, unit, rows, athlete, own);
    var i :| 0 <= i < |meet.roster| && meet.roster[i] == athlete;
    assert rows[i] in rows && rows[i].athlete == athlete;
  }

  // Entry i of the grid, ranked and shown, is the line of that athlete.
  lemma EntryShown(meet: Meet, db: Db, unit: string, i: nat)
    requires i < |meet.roster|
    ensures var bases, rows := Bases(meet, db, unit), Grid(meet, db, unit);
            RowFor(db.results, unit, Overrides(db.results, unit, rows))(StandingOf(bases, bases[i]))
            == LineOf(meet, db, unit)(meet.roster[i])
  {
    GridRowReconciled(meet, db, unit, meet.roster[i]);
    OverridesMeaning(meet, db, unit, meet.roster[i]);
    assert Bases(meet, db, unit)[i] == BasisFor(meet, db, unit, meet.roster[i]);
    BasisAthlete(meet, db, unit, meet.roster[i]);
  }

  lemma BasisAthlete(meet: Meet, db: Db, unit: string, athlete: string)
    ensures BasisFor(meet, db, unit, athlete).athlete == athlete
  {}

  lemma EntriesShown(meet: Meet, db: Db, unit: string)
    ensures var bases := Bases(meet, db, unit);
            Map(RowFor(db.results, unit, Overrides(db.results, unit, Grid(meet, db, unit))), Map(MeaningIn(bases), bases))
            == Map(LineOf(meet, db, unit), meet.roster)
  {
    var bases := Bases(meet, db, unit);
    var show := RowFor(db.results, unit, Overrides(db.results, unit, Grid(meet, db, unit)));
    var meant := Map(MeaningIn(bases), bases);
    forall i | 0 <= i < |meet.roster| ensures Map(show, meant)[i] == Map(LineOf(meet, db, unit), meet.roster)[i] {
      EntryShown(meet, db, unit, i);
      assert meant[i] == StandingOf(bases, bases[i]);
    }
  }

  // The table holds, in its own order, exactly one such line for each entry of the roster.
  lemma LineByLine(meet: Meet, db: Db, unit: string)
    ensures multiset(TableOf(meet, db, unit)) == multiset(Map(LineOf(meet, db, unit), meet.roster))
  {
    var bases := Bases(meet, db, unit);
    var show := RowFor(db.results, unit, Overrides(db.results, unit, Grid(meet, db, unit)));
    TableMeaning(bases);
    MapPermutation(show, OfficialTable(bases), Map(MeaningIn(bases), bases));
    EntriesShown(meet, db, unit);
  }

  // --- After a correction ---

  // What a corrected mark ranks the athlete by: that mark as a single trial, unless it already
  // was the best, when the trials behind it still break ties.
  function CorrectedSeries(raw: Series, mark: string): Series {
    if Best(raw.attempts) == Some(mark) then raw else raw.(attempts := OnlyTrial(mark))
  }

  // The line the correction calls for among these bases.
  predicate ShowsCorrection(line: UnitRow, bases: seq<Series>, raw: Series, c: R.Correction) {
    if c.status != Unset then line == UnitRow(0, raw.athlete, "", c.status, c.detail)
    else
      && CentiMark(c.mark).Ok?
      && var mark := Canonical(c.mark);
         && line.athlete == raw.athlete && line.mark == mark && line.detail == c.detail
         && line.rank == 1 + CountAhead(bases, CorrectedSeries(raw, mark), Better)
  }

  function OnlyTrial(mark: string): seq<Attempt> { [Attempt(1, Valid, mark, None)] }

  lemma OnlyTrialMarks(centi: nat)
    requires centi <= MARK_LIMIT
    ensures ValidMarks(OnlyTrial(FormatCentiMark(centi))) == [centi]
  {
    var only := OnlyTrial(FormatCentiMark(centi));
    ParsePrint(centi);
    assert only[1..] == [] && ValidMarks([]) == [];
    assert ValidMarks(only) == [CentiMark(only[0].mark).value] + ValidMarks(only[1..]);
  }

  lemma OneSorted(n: nat)
    ensures StableSort([n], Greater) == [n]
  {
    var sorted := StableSort([n], Greater);
    SortPermutes([n], Greater);
    assert |sorted| == |multiset(sorted)| == |multiset([n])| == 1;
    assert sorted[0] in multiset([n]);
  }

  // The corrected mark is what the athlete is ranked by.
  lemma CorrectedBest(raw: Series, centi: nat)
    requires centi <= MARK_LIMIT
    ensures var mark := FormatCentiMark(centi);
            var marks := MarksDesc(CorrectedSeries(raw, mark).attempts);
            marks != [] && BestText(marks) == mark
  {
    var mark := FormatCentiMark(centi);
    if Best(raw.attempts) != Some(mark) {
      OnlyTrialMarks(centi);
      OneSorted(centi);
      assert MarksDesc(OnlyTrial(mark)) == [centi];
    }
  }

  lemma MarkShown(meet: Meet, db: Db, unit: string, bases: seq<Series>, athlete: string, centi: nat, detail: string)
    requires centi <= MARK_LIMIT
    requires (unit, athlete) in db.results
    requires db.results[(unit, athlete)].(version := 0)
             == Settled(FormatCentiMark(centi), NoTiming, Unset, detail, Operator, 0)
    ensures var line, raw := LineFor(meet, db, unit, bases, athlete), RawOf(meet, db, unit, athlete);
            && line.athlete == athlete && line.mark == FormatCentiMark(centi) && line.detail == detail
            && line.rank == 1 + CountAhead(bases, CorrectedSeries(raw, FormatCentiMark(centi)), Better)
  {
    var raw, r := RawOf(meet, db, unit, athlete), db.results[(unit, athlete)];
    CorrectedBest(raw, centi);
    assert FormatCentiMark(centi) != "";
    assert r.status == Unset && r.mark == FormatCentiMark(centi) && r.detail == detail;
    assert BasisFor(meet, db, unit, athlete) == CorrectedSeries(raw, FormatCentiMark(centi));
  }

  lemma StatusShown(meet: Meet, db: Db, unit: string, bases: seq<Series>, athlete: string, status: Status, detail: string)
    requires ValidCaptureStatus(status, detail)
    requires (unit, athlete) in db.results
    requires db.results[(unit, athlete)].(version := 0) == Settled("", NoTiming, status, detail, Operator, 0)
    ensures LineFor(meet, db, unit, bases, athlete) == UnitRow(0, athlete, "", status, detail)
  {
    var raw, r := RawOf(meet, db, unit, athlete), db.results[(unit, athlete)];
    assert r.status == status && r.mark == "" && r.detail == detail;
    if status == SeriesStatus(raw.attempts) {
      assert Best(raw.attempts).None?;
      assert BasisFor(meet, db, unit, athlete) == raw;
    } else {
      assert BasisFor(meet, db, unit, athlete).attempts == [];
      assert MarksDesc([]) == [];
    }
  }

  // What a successful correction wrote.
  lemma CorrectionWrites(meet: Meet, db: Db, unit: string, athlete: string, c: R.Correction, now: int)
    requires R.CorrectResult(meet, db, unit, athlete, c, now).1.Ok?
    ensures var next, key := R.CorrectResult(meet, db, unit, athlete, c, now).0, (unit, athlete);
            && next.trials == db.trials && athlete in meet.roster && unit in meet.units && key in next.results
            && R.CorrectedRow(meet.units[unit].family, c) == Ok(next.results[key].(version := 0))
  {}

  lemma CorrectedLine(meet: Meet, db: Db, unit: string, athlete: string, c: R.Correction)
    requires (unit, athlete) in db.results
    requires R.CorrectedRow(Horizontal, c) == Ok(db.results[(unit, athlete)].(version := 0))
    ensures ShowsCorrection(LineOf(meet, db, unit)(athlete), Bases(meet, db, unit), RawOf(meet, db, unit, athlete), c)
  {
    var bases := Bases(meet, db, unit);
    if c.status == Unset {
      CentiMarkBounded(c.mark);
      MarkShown(meet, db, unit, bases, athlete, CentiMark(c.mark).value, c.detail);
    } else {
      StatusShown(meet, db, unit, bases, athlete, c.status, c.detail);
    }
  }

  lemma LineFromRoster(meet: Meet, db: Db, unit: string, line: UnitRow)
    requires line in multiset(Map(LineOf(meet, db, unit), meet.roster))
    ensures line == LineOf(meet, db, unit)(line.athlete)
  {
    var lines := Map(LineOf(meet, db, unit), meet.roster);
    assert line in lines;
    var i :| 0 <= i < |lines| && lines[i] == line;
    assert line == LineOf(meet, db, unit)(meet.roster[i]);
  }

  // Every entry has a line, and an athlete's lines are the athlete's own.
  lemma LinesOfAthlete(meet: Meet, db: Db, unit: string, athlete: string)
    requires athlete in meet.roster
    ensures LineOf(meet, db, unit)(athlete) in TableOf(meet, db, unit)
    ensures forall line <- TableOf(meet, db, unit) | line.athlete == athlete :: line == LineOf(meet, db, unit)(athlete)
  {
    var table, lines := TableOf(meet, db, unit), Map(LineOf(meet, db, unit), meet.roster);
    LineByLine(meet, db, unit);
    forall line <- table | line.athlete == athlete ensures line == LineOf(meet, db, unit)(athlete) {
      assert line in multiset(table);
      LineFromRoster(meet, db, unit, line);
    }
    var i :| 0 <= i < |meet.roster| && meet.roster[i] == athlete;
    assert lines[i] in multiset(lines);
    assert lines[i] in multiset(table);
  }

  // After every successful correction of a horizontal unit the athlete's lines, and there is
  // one, show the correction: the corrected mark, ranked as that mark alone, or no rank and the
  // corrected status, also where the trials had given that status already.
  lemma CorrectionDecidesLine(meet: Meet, db: Db, unit: string, athlete: string, c: R.Correction, now: int)
    requires meet.IsUnit(unit, Horizontal)
    ensures var (next, done) := R.CorrectResult(meet, db, unit, athlete, c, now);
            done.Ok? ==>
              && (exists line <- TableOf(meet, next, unit) :: line.athlete == athlete)
              && (forall line <- TableOf(meet, next, unit) | line.athlete == athlete ::
                    ShowsCorrection(line, Bases(meet, next, unit), RawOf(meet, db, unit, athlete), c))
  {
    var (next, done) := R.CorrectResult(meet, db, unit, athlete, c, now);
    if done.Ok? {
      CorrectionWrites(meet, db, unit, athlete, c, now);
      CorrectedLine(meet, next, unit, athlete, c);
      LinesOfAthlete(meet, next, unit, athlete);
    }
  }

  // --- Until the list is posted again ---

  lemma {:induction false} SeriesStands(db: Db, next: Db, unit: string, athlete: string, n: nat)
    requires SameTrials(db, next, unit)
    ensures GridCells(next.trials, unit, athlete, n) == GridCells(db.trials, unit, athlete, n)
  {
    if n > 0 {
      SeriesStands(db, next, unit, athlete, n - 1);
      var cell := Cell(unit, athlete, n);
      assert cell in next.trials <==> cell in db.trials;
    }
  }

  lemma {:induction false} OverridesStand(db: Db, next: Db, unit: string, rows: seq<GridRow>)
    requires SameResults(db, next, unit)
    ensures Overrides(next.results, unit, rows) == Overrides(db.results, unit, rows)
  {
    if rows != [] {
      OverridesStand(db, next, unit, rows[..|rows| - 1]);
      var a := rows[|rows| - 1].athlete;
      assert ResultFor(next.results, unit, a) == ResultFor(db.results, unit, a);
    }
  }

  lemma GridStands(meet: Meet, db: Db, next: Db, unit: string)
    requires SameTrials(db, next, unit)
    ensures Grid(meet, next, unit) == Grid(meet, db, unit)
  {
    forall i | 0 <= i < |meet.roster| ensures Grid(meet, next, unit)[i] == Grid(meet, db, unit)[i] {
      SeriesStands(db, next, unit, meet.roster[i], SeriesLength(meet, unit));
    }
  }

  lemma TableStands(meet: Meet, db: Db, next: Db, unit: string)
    requires SameTrials(db, next, unit) && SameResults(db, next, unit)
    ensures TableOf(meet, next, unit) == TableOf(meet, db, unit)
  {
    var rows := Grid(meet, db, unit);
    GridStands(meet, db, next, unit);
    OverridesStand(db, next, unit, rows);
    var bases := Bases(meet, db, unit);
    forall i | 0 <= i < |rows| ensures Bases(meet, next, unit)[i] == bases[i] {
      assert ResultFor(next.results, unit, rows[i].athlete) == ResultFor(db.results, unit, rows[i].athlete);
    }
    assert Bases(meet, next, unit) == bases;
    var lines := OfficialTable(bases);
    forall i | 0 <= i < |lines| ensures TableOf(meet, next, unit)[i] == TableOf(meet, db, unit)[i] {
      assert (unit, lines[i].athlete) in next.results <==> (unit, lines[i].athlete) in db.results;
    }
  }

  // Over every run, as long as an announced unit was not posted again, its whole table stands.
  lemma PostedTableStands(meet: Meet, db: Db, run: seq<Step>, unit: string)
    requires db.Announced(unit) && unit in Exec(meet, db, run).announcements
    requires Exec(meet, db, run).announcements[unit] == db.announcements[unit]
    ensures TableOf(meet, Exec(meet, db, run), unit) == TableOf(meet, db, unit)
  {
    AnnouncedIsClosed(meet, db, run, unit);
    FrozenBetweenAnnouncements(meet, db, run, unit);
    TableStands(meet, db, Exec(meet, db, run), unit);
  }
}
