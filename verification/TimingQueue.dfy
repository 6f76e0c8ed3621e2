// Deciding a queued timing row: when its write succeeds, and what a second decision does.
module TimingQueue {
  import opened Basics
  import opened Text
  import opened Vocabulary
  import opened Tables
  import opened Capture
  import opened Protocol
  import opened AnnouncedResults
  import opened Corrections
  import R = Results

  // A row an unannounced unit takes of a stored athlete: a blank mark, or a recordable time, which
  // counts if no status stands beside it, and then the athlete is registered and it can be scored.
  predicate RowWritable(meet: Meet, unit: string, athlete: string, row: TimingRow) {
    && meet.Stored(athlete)
    && (row.mark != "" ==> ReadableTime(row.mark, row.timing))
    && (row.mark != "" && row.status == Unset ==>
          athlete in meet.roster && meet.Scores(unit, athlete, row.timing, R.TimedMark(row.mark, row.timing).value))
  }

  // The unit is known, the athlete chosen, a status given where the file's had no equivalent;
  // and the unit takes the row, or the correction it has become since the unit was announced.
  predicate Writable(meet: Meet, db: Db, c: Conflict, choice: R.Choice, now: int) {
    && c.unit.Some? && c.unit.value in meet.units && R.ChosenAthlete(c, choice) != ""
    && (c.reason.UnmappedStatus? ==> choice.status != Unset)
    && var unit, athlete, row := c.unit.value, R.ChosenAthlete(c, choice), R.ChosenRow(db, c, choice);
       if db.Announced(unit) then Correctable(meet, db, unit, athlete, R.CorrectionFrom(row, choice), now)
       else RowWritable(meet, unit, athlete, row)
  }

  lemma WritableExactly(meet: Meet, db: Db, c: Conflict, choice: R.Choice, now: int)
    ensures R.WriteChoice(meet, db, c, choice, now).1.Ok? <==> Writable(meet, db, c, choice, now)
  {
    if c.unit.Some? {
      var row := R.ChosenRow(db, c, choice);
      CorrectableExactly(meet, db, c.unit.value, R.ChosenAthlete(c, choice), R.CorrectionFrom(row, choice), now);
      TimingRowExactly(meet, db, c.unit.value, R.ChosenAthlete(c, choice), row, c.source);
    }
  }

  lemma TimingRowExactly(meet: Meet, db: Db, unit: string, athlete: string, row: TimingRow, source: Source)
    ensures R.ApplyTimingRow(meet, db, unit, athlete, row, source).1.Ok?
            <==> unit in meet.units && RowWritable(meet, unit, athlete, row)
  {}

  predicate Writes(action: R.Action) { action.Replace? || action.Merge? }

  // The first decision on an open row: it takes effect exactly when it writes nothing or its
  // write is possible, and closes the row to what was chosen.
  lemma FirstResolution(meet: Meet, db: Db, index: nat, choice: R.Choice, now: int)
    requires index < |db.conflicts| && db.conflicts[index].status.Open?
    ensures var (next, done) := R.ResolveTimingConflict(meet, db, index, choice, now);
            && (done.Ok? <==> (Writes(choice.action) ==> Writable(meet, db, db.conflicts[index], choice, now)))
            && (done.Err? ==> next == db)
            && (done.Ok? ==> next.conflicts == db.conflicts[index := db.conflicts[index].(status :=
                  match choice.action case Keep => Kept case Discard => Discarded case Replace => Replaced case Merge => Merged)])
  {
    var c := db.conflicts[index];
    WritableExactly(meet, db, c, choice, now);
    WriteChoiceWrites(meet, db, c, choice, now);
    WriteChoiceFrame(meet, db, c, choice, now);
  }

  // A second decision always answers with an error, yet it writes a result exactly when it is a
  // replace or merge whose write is possible: the write comes before the look at the status.
  lemma SecondResolution(meet: Meet, db: Db, index: nat, choice: R.Choice, now: int)
    requires index < |db.conflicts| && !db.conflicts[index].status.Open?
    ensures var (next, done) := R.ResolveTimingConflict(meet, db, index, choice, now);
            && done.Err?
            && (next != db <==> Writes(choice.action) && Writable(meet, db, db.conflicts[index], choice, now))
            && (next != db ==> next.results != db.results && next.conflicts == db.conflicts)
  {
    var c := db.conflicts[index];
    ClosedResolution(meet, db, index, choice, now);
    WritableExactly(meet, db, c, choice, now);
    WriteChoiceWrites(meet, db, c, choice, now);
  }

  lemma ClosedResolution(meet: Meet, db: Db, index: nat, choice: R.Choice, now: int)
    requires index < |db.conflicts| && !db.conflicts[index].status.Open?
    ensures var (next, done) := R.ResolveTimingConflict(meet, db, index, choice, now);
            var saved := R.WriteChoice(meet, db, db.conflicts[index], choice, now).0;
            done.Err? && next == (if Writes(choice.action) then saved else db) && saved.conflicts == db.conflicts
  {
    WriteChoiceFrame(meet, db, db.conflicts[index], choice, now);
  }

  // --- A row replaced twice ---

  const SPRINT: Meet := Meet(map["100m" := UnitInfo(Track, false, 0)], ["ann"], {}, map[(1, 1, 1) := "100m"], map["7" := "ann"], NoPoints, true)

  // A row of the timing file whose status word has no equivalent.
  const ODD_ROW := TimingRow(1, 1, 1, "7", "", NoTiming, Unset, "", true, false)

  function ReplaceBy(status: Status): R.Choice { R.Choice(R.Replace, "", status, "", "", "") }

  function Absent(status: Status): Settled { Settled("", NoTiming, status, "", ImportLif, 0) }

  // The queue row is closed as replaced, and this is what stands for the athlete.
  predicate Stands(db: Db, status: Status) {
    && |db.conflicts| == 1 && db.conflicts[0].status.Replaced?
    && ("100m", "ann") in db.results && db.results[("100m", "ann")].status == status
  }

  // From the empty store: the row is queued, replaced with DNS, and replaced again with DNF. The
  // second replacement is refused and yet stands.
  lemma ReplacedTwice()
    ensures var queued := [ImportTimingRow(ODD_ROW, ImportLif)];
            var first := queued + [ResolveTiming(0, ReplaceBy(DNS), 0)];
            var once := Exec(SPRINT, EMPTY_DB, first);
            var (twice, done) := R.ResolveTimingConflict(SPRINT, once, 0, ReplaceBy(DNF), 0);
            && SPRINT.Valid() && Exec(SPRINT, EMPTY_DB, first + [ResolveTiming(0, ReplaceBy(DNF), 0)]) == twice
            && Stands(once, DNS) && done.Err? && Stands(twice, DNF)
  {
    var queue, replace, again :=
      ImportTimingRow(ODD_ROW, ImportLif), ResolveTiming(0, ReplaceBy(DNS), 0), ResolveTiming(0, ReplaceBy(DNF), 0);
    OddRowQueued();
    FirstReplaced();
    SecondReplaced(Apply(SPRINT, QUEUED, replace));
    ThreeSteps(SPRINT, queue, replace, again);
  }

  const QUEUED: Db :=
    EMPTY_DB.(conflicts := [Conflict(Some("100m"), Some("ann"), UnmappedStatus, ODD_ROW, ImportLif, Open)])

  lemma OddRowQueued()
    ensures Apply(SPRINT, EMPTY_DB, ImportTimingRow(ODD_ROW, ImportLif)) == QUEUED
  {
    assert [] + QUEUED.conflicts == QUEUED.conflicts;
  }

  lemma FirstReplaced()
    ensures var once := Apply(SPRINT, QUEUED, ResolveTiming(0, ReplaceBy(DNS), 0));
            Stands(once, DNS) && once.conflicts[0] == QUEUED.conflicts[0].(status := Replaced)
            && once.announcements == map[]
  {
    FirstResolution(SPRINT, QUEUED, 0, ReplaceBy(DNS), 0);
    assert Apply(SPRINT, QUEUED, ResolveTiming(0, ReplaceBy(DNS), 0)).results
        == map[("100m", "ann") := Absent(DNS).(version := 1)];
  }

  lemma SecondReplaced(once: Db)
    requires Stands(once, DNS) && once.conflicts[0] == QUEUED.conflicts[0].(status := Replaced)
    requires once.announcements == map[]
    ensures var (twice, done) := R.ResolveTimingConflict(SPRINT, once, 0, ReplaceBy(DNF), 0);
            && done.Err? && Stands(twice, DNF)
            && twice == Apply(SPRINT, once, ResolveTiming(0, ReplaceBy(DNF), 0))
  {
    SecondResolution(SPRINT, once, 0, ReplaceBy(DNF), 0);
    assert R.ChosenAthlete(once.conflicts[0], ReplaceBy(DNF)) == "ann";
    assert R.WriteChoice(SPRINT, once, once.conflicts[0], ReplaceBy(DNF), 0).0.results
        == Upsert(once.results, "100m", "ann", Absent(DNF));
  }

  lemma ThreeSteps(meet: Meet, a: Step, b: Step, c: Step)
    ensures Exec(meet, EMPTY_DB, [a] + [b]) == Apply(meet, Apply(meet, EMPTY_DB, a), b)
    ensures Exec(meet, EMPTY_DB, [a] + [b] + [c]) == Apply(meet, Exec(meet, EMPTY_DB, [a] + [b]), c)
  {
    assert [a][..0] == [] && ([a] + [b])[..1] == [a] && ([a] + [b] + [c])[..2] == [a] + [b];
    assert Exec(meet, EMPTY_DB, [a]) == Apply(meet, EMPTY_DB, a);
  }

  // --- An athlete nobody knows ---

  // A DNS for a bib nobody wears.
  const LOST_ROW := TimingRow(1, 1, 1, "8", "", NoTiming, DNS, "", false, false)

  const REASSIGN: R.Choice := R.Choice(R.Replace, "ghost", Unset, "", "", "")

  // From the empty store: the row is queued for its unknown bib, and replacing it for an athlete who
  // is not stored is refused and changes nothing.
  lemma StrangerRefused()
    ensures var queued := Exec(SPRINT, EMPTY_DB, [ImportTimingRow(LOST_ROW, ImportLif)]);
            var (next, done) := R.ResolveTimingConflict(SPRINT, queued, 0, REASSIGN, 0);
            && !SPRINT.Stored("ghost") && |queued.conflicts| == 1 && queued.conflicts[0].status.Open?
            && queued.conflicts[0].reason.UnknownBib? && done == Err(R.NotStored) && next == queued
  {
    var step, row := ImportTimingRow(LOST_ROW, ImportLif), Conflict(Some("100m"), None, UnknownBib, LOST_ROW, ImportLif, Open);
    assert [step][..0] == [];
    assert Exec(SPRINT, EMPTY_DB, [step]) == Apply(SPRINT, EMPTY_DB, step);
    assert Apply(SPRINT, EMPTY_DB, step) == EMPTY_DB.(conflicts := [row]) by { assert [] + [row] == [row]; }
  }
}
