// What capture, correction, import and decisions leave in a result: which mark, under which timing
// method, which status, and whose.
module RecordedRows {
  import opened Basics
  import opened Marks
  import opened MarkReading
  import opened Vocabulary
  import opened Tables
  import opened Capture
  import opened AnnouncedResults
  import opened TimingQueue
  import R = Results

  // --- Times ---

  ghost predicate RecordedTime(reading: string, timing: Timing, kept: string) {
    match timing
    case NoTiming => false
    case Manual => RecordedHand(reading, kept)
    case Electronic => RecordedElectronic(reading, kept)
  }

  // Hand times are rounded up, electronic ones are not, and a time without a method is refused.
  lemma TimedExactly(reading: string, timing: Timing, kept: string)
    ensures R.TimedMark(reading, timing) == Ok(kept) <==> RecordedTime(reading, timing, kept)
  {
    HandExactly(reading, kept);
    ElectronicExactly(reading, kept);
  }

  // What the athlete has in the unit now; everyone else, everywhere else, has what they had.
  ghost predicate Stores(db: Db, next: Db, unit: string, athlete: string, r: Settled) {
    var key := (unit, athlete);
    && next.results == db.results[key := r]
    && r.version == if key in db.results then db.results[key].version + 1 else 1
  }

  // --- Track capture and corrections ---

  // A status alone, or a time as its method records it.
  ghost predicate HoldsTime(r: Settled, reading: string, timing: Timing, status: Status, detail: string) {
    && r.status == status && r.detail == detail
    && if status != Unset then r.mark == "" && r.timing == NoTiming
       else RecordedTime(reading, timing, r.mark) && r.timing == timing
  }

  // A time of which points and records can be looked up.
  ghost predicate RatedTime(meet: Meet, unit: string, athlete: string, reading: string, timing: Timing) {
    exists kept: string :: RecordedTime(reading, timing, kept) && meet.Rates(unit, athlete, timing, kept)
  }

  // Track capture succeeds exactly on an unannounced track unit, for a registered athlete, over the
  // version expected if one is, with a valid status or a time that can be recorded and rated; then
  // the athlete's result holds it, as the operator's, and otherwise nothing changed.
  lemma TrackExactly(meet: Meet, db: Db, unit: string, input: R.TrackInput)
    ensures var (next, done) := R.SaveTrackResult(meet, db, unit, input);
            var key := (unit, input.athlete);
            && (done.Ok? <==>
                  && meet.IsUnit(unit, Track) && !db.Announced(unit) && input.athlete in meet.roster
                  && (input.expected.Some? ==>
                        if input.expected.value > 0
                        then key in db.results && db.results[key].version == input.expected.value
                        else key !in db.results)
                  && if input.status != Unset then ValidCaptureStatus(input.status, input.detail)
                     else RatedTime(meet, unit, input.athlete, input.time, input.timing))
            && (done.Err? ==> next == db)
            && (done.Ok? ==>
                  && next == db.(results := next.results) && key in next.results
                  && Stores(db, next, unit, input.athlete, next.results[key])
                  && HoldsTime(next.results[key], input.time, input.timing, input.status, input.detail)
                  && next.results[key].source == Operator)
  {
    CapturedExactly(meet, unit, input);
  }

  lemma CapturedExactly(meet: Meet, unit: string, input: R.TrackInput)
    ensures var row := R.CapturedRow(meet, unit, input);
            && (row.Ok? <==> if input.status != Unset then ValidCaptureStatus(input.status, input.detail)
                             else RatedTime(meet, unit, input.athlete, input.time, input.timing))
            && (row.Ok? ==> HoldsTime(row.value, input.time, input.timing, input.status, input.detail)
                            && row.value.source == Operator)
  {
    var timed := R.TimedMark(input.time, input.timing);
    forall kept ensures timed == Ok(kept) <==> RecordedTime(input.time, input.timing, kept) {
      TimedExactly(input.time, input.timing, kept);
    }
    if timed.Ok? { assert RecordedTime(input.time, input.timing, timed.value); }
  }

  // What a correction leaves: on the track a time as its method records it, in the field the mark
  // in canonical spelling, and a status alone.
  ghost predicate HoldsCorrection(family: Family, r: Settled, c: R.Correction) {
    if family.Track? then HoldsTime(r, c.mark, c.timing, c.status, c.detail)
    else
      && r.status == c.status && r.detail == c.detail && r.timing == NoTiming
      && if c.status != Unset then r.mark == ""
         else CentiMark(c.mark).Ok? && CentiMark(c.mark).value > 0 && r.mark == Canonical(c.mark)
  }

  lemma CorrectionStores(meet: Meet, db: Db, unit: string, athlete: string, c: R.Correction, now: int)
    requires R.CorrectResult(meet, db, unit, athlete, c, now).1.Ok?
    ensures var next, key := R.CorrectResult(meet, db, unit, athlete, c, now).0, (unit, athlete);
            && unit in meet.units && key in next.results && Stores(db, next, unit, athlete, next.results[key])
            && HoldsCorrection(meet.units[unit].family, next.results[key], c) && next.results[key].source == Operator
            && next.announcements
               == db.announcements[unit := (if unit in db.announcements then db.announcements[unit] else []) + [now]]
  {
    var row := R.CorrectedRow(meet.units[unit].family, c).value;
    if c.status == Unset && meet.units[unit].family.Track? { TimedExactly(c.mark, c.timing, row.mark); }
  }

  // --- Timing rows ---

  // A row may hold a mark and a status beside each other.
  ghost predicate HoldsRow(r: Settled, row: TimingRow, source: Source) {
    && r.status == row.status && r.detail == row.detail && r.source == source
    && if row.mark == "" then r.mark == "" && r.timing == NoTiming
       else RecordedTime(row.mark, row.timing, r.mark) && r.timing == row.timing
  }

  lemma RowStores(meet: Meet, db: Db, unit: string, athlete: string, row: TimingRow, source: Source)
    ensures var (next, done) := R.ApplyTimingRow(meet, db, unit, athlete, row, source);
            && (done.Err? ==> next == db)
            && (done.Ok? ==>
                  && next == db.(results := next.results) && (unit, athlete) in next.results
                  && Stores(db, next, unit, athlete, next.results[(unit, athlete)])
                  && HoldsRow(next.results[(unit, athlete)], row, source))
  {
    var timed := R.TimedMark(row.mark, row.timing);
    if row.mark != "" && timed.Ok? { TimedExactly(row.mark, row.timing, timed.value); }
  }

  // What a replacement or merge of a queued row is to leave: the file's mark and the file's status,
  // or the one chosen for a status without an equivalent; in a merge, what the athlete already has
  // is kept and only blanks are filled.
  ghost predicate Calls(choice: R.Choice, c: Conflict, existing: Option<Settled>, row: TimingRow) {
    var status := if c.reason.UnmappedStatus? then choice.status else c.row.status;
    var detail := if c.reason.UnmappedStatus? then choice.detail else c.row.detail;
    var kept := choice.action.Merge? && existing.Some?;
    && (if kept && existing.value.mark != ""
        then row.mark == existing.value.mark && row.timing == existing.value.timing
        else row.mark == c.row.mark && row.timing == c.row.timing)
    && (if kept && existing.value.status != Unset
        then row.status == existing.value.status && row.detail == existing.value.detail
        else row.status == status && row.detail == detail)
  }

  // The athlete a decision is about: the row's, or the one named for a row without.
  function Meant(c: Conflict, choice: R.Choice): string {
    if c.athlete.Some? then c.athlete.value else choice.reassign
  }

  // A replacement or merge that takes effect leaves the athlete what it calls for, as the import's
  // while the unit is not announced, as a correction afterwards.
  lemma DecisionStores(meet: Meet, db: Db, index: nat, choice: R.Choice, now: int) returns (row: TimingRow)
    requires index < |db.conflicts| && Writes(choice.action)
    requires R.ResolveTimingConflict(meet, db, index, choice, now).1.Ok?
    ensures var next, c := R.ResolveTimingConflict(meet, db, index, choice, now).0, db.conflicts[index];
            && c.unit.Some? && c.unit.value in meet.units
            && var (unit, key) := (c.unit.value, (c.unit.value, Meant(c, choice)));
               && Calls(choice, c, if key in db.results then Some(db.results[key]) else None, row)
               && key in next.results && Stores(db, next, unit, key.1, next.results[key])
               && if db.Announced(unit)
                  then HoldsCorrection(meet.units[unit].family, next.results[key],
                                       R.Correction(row.mark, row.timing, row.status, row.detail, choice.reason, choice.escalation))
                  else HoldsRow(next.results[key], row, c.source)
  {
    var c := db.conflicts[index];
    row := R.ChosenRow(db, c, choice);
    ClosingKeepsResults(meet, db, index, choice, now);
    assert R.WriteChoice(meet, db, c, choice, now).1.Ok?;
    WritableExactly(meet, db, c, choice, now);
    WrittenStores(meet, db, c, choice, now);
    ChosenCalls(db, c, choice);
  }

  lemma ChosenCalls(db: Db, c: Conflict, choice: R.Choice)
    requires c.unit.Some?
    ensures var key := (c.unit.value, Meant(c, choice));
            Calls(choice, c, if key in db.results then Some(db.results[key]) else None, R.ChosenRow(db, c, choice))
  {}

  lemma WrittenStores(meet: Meet, db: Db, c: Conflict, choice: R.Choice, now: int)
    requires R.WriteChoice(meet, db, c, choice, now).1.Ok? && c.unit.Some? && c.unit.value in meet.units
    ensures var next, row := R.WriteChoice(meet, db, c, choice, now).0, R.ChosenRow(db, c, choice);
            var (unit, key) := (c.unit.value, (c.unit.value, Meant(c, choice)));
            && key in next.results && Stores(db, next, unit, key.1, next.results[key])
            && if db.Announced(unit)
               then HoldsCorrection(meet.units[unit].family, next.results[key],
                                    R.Correction(row.mark, row.timing, row.status, row.detail, choice.reason, choice.escalation))
               else HoldsRow(next.results[key], row, c.source)
  {
    var unit, athlete, row := c.unit.value, Meant(c, choice), R.ChosenRow(db, c, choice);
    RowStores(meet, db, unit, athlete, row, c.source);
    if db.Announced(unit) { CorrectionStores(meet, db, unit, athlete, R.CorrectionFrom(row, choice), now); }
  }
}
