// When a correction succeeds, and what it closes: a correction announces its unit whether or
// not the unit had been announced, and from then on nothing is captured there.
module Corrections {
  import opened Basics
  import opened Text
  import opened Marks
  import opened Vocabulary
  import opened FieldSeries
  import opened Tables
  import opened Capture
  import opened Protocol
  import opened AnnouncedResults
  import R = Results

  // A time that can be recorded: its timing method given, and readable and positive.
  predicate ReadableTime(mark: string, timing: Timing) { !timing.NoTiming? && ReadableMark(mark) }

  predicate ReadableMark(mark: string) { CentiMark(mark).Ok? && CentiMark(mark).value > 0 }

  // The protest window of the unit has run out.
  predicate WindowElapsed(db: Db, unit: string, now: int) {
    db.Announced(unit) && now - db.LatestAnnouncement(unit) >= 30 * 60
  }

  // The protest clock: it runs from the latest announcement for half an hour, and what is left of it
  // and whether it has run out agree.
  lemma ProtestClock(db: Db, unit: string, now: int)
    ensures var state := R.ComputeProtestState(db, unit, now);
            && (state.announced <==> unit in db.announcements && db.announcements[unit] != [])
            && (state.official <==> WindowElapsed(db, unit, now))
            && state.remaining == if state.announced && !state.official
                                  then db.announcements[unit][|db.announcements[unit]| - 1] + 30 * 60 - now else 0
  {}

  // A reason; a known unit of a family that has results; a registered athlete; an escalation
  // once the protest window has run out; and a valid status, or a readable mark that can be scored
  // and held against records as it will be stored. Whether the unit was announced before is not
  // asked.
  predicate Correctable(meet: Meet, db: Db, unit: string, athlete: string, c: R.Correction, now: int) {
    && TrimSpace(c.reason) != "" && athlete in meet.roster
    && unit in meet.units && !meet.units[unit].family.OtherFamily?
    && (WindowElapsed(db, unit, now) ==> TrimSpace(c.escalation) != "")
    && (if c.status != Unset then ValidCaptureStatus(c.status, c.detail)
        else if meet.units[unit].family.Track? then
          ReadableTime(c.mark, c.timing) && meet.Rates(unit, athlete, c.timing, R.TimedMark(c.mark, c.timing).value)
        else ReadableMark(c.mark) && meet.Rates(unit, athlete, NoTiming, Canonical(c.mark)))
  }

  // No trial and no bar of the unit appears, goes or changes.
  ghost predicate SameTrials(db: Db, next: Db, unit: string) {
    && (forall cell: Cell :: cell.unit == unit ==>
          (cell in next.trials <==> cell in db.trials)
          && (cell in db.trials ==> next.trials[cell] == db.trials[cell]))
    && (forall cell: BarCell :: cell.unit == unit ==>
          (cell in next.bars <==> cell in db.bars) && (cell in db.bars ==> next.bars[cell] == db.bars[cell]))
  }

  lemma SameTrialsTransitive(a: Db, b: Db, c: Db, unit: string)
    requires SameTrials(a, b, unit) && SameTrials(b, c, unit)
    ensures SameTrials(a, c, unit)
  {
    forall cell: Cell | cell.unit == unit
      ensures (cell in c.trials <==> cell in a.trials) && (cell in a.trials ==> c.trials[cell] == a.trials[cell])
    {
      assert cell in b.trials <==> cell in a.trials;
    }
    forall cell: BarCell | cell.unit == unit
      ensures (cell in c.bars <==> cell in a.bars) && (cell in a.bars ==> c.bars[cell] == a.bars[cell])
    {
      assert cell in b.bars <==> cell in a.bars;
    }
  }

  lemma SaveClosed(meet: Meet, db: Db, u: string, input: Input, unit: string)
    requires db.Announced(unit)
    ensures SameTrials(db, SaveFieldAttempt(meet, db, u, input).0, unit)
  {
    SaveFrame(meet, db, u, input);
  }

  lemma CaptureClosed(meet: Meet, db: Db, s: Step, unit: string)
    requires db.Announced(unit) && IsCaptureStep(s)
    ensures SameTrials(db, Apply(meet, db, s), unit)
  {
    CaptureStepFrame(meet, db, s);
    var w := TrialWrite(meet, db, s);
    if w.Some? { SaveClosed(meet, db, w.value.0, w.value.1, unit); }
    assert SameTrials(db, AfterWrite(meet, db, w), unit);
  }

  lemma BarsClosed(meet: Meet, db: Db, s: Step, unit: string)
    requires db.Announced(unit) && !IsLockStep(s) && !IsCaptureStep(s)
    ensures SameTrials(db, Apply(meet, db, s), unit)
  {
    ResultStepFrame(meet, db, s);
    if !s.CaptureBar? { BarsUntouched(meet, db, s); }
  }

  // Only vertical capture writes bars.
  lemma BarsUntouched(meet: Meet, db: Db, s: Step)
    requires !s.CaptureBar? && !IsLockStep(s) && !IsCaptureStep(s)
    ensures Apply(meet, db, s).bars == db.bars
  {
    match s
    case BulkDNS(unit) => BulkKeepsBars(meet, db, unit, 0);
    case BulkStopped(unit, n) => BulkKeepsBars(meet, db, unit, n);
    case CaptureTrack(unit, track) => TrackKeepsBars(meet, db, unit, track);
    case Correct(unit, athlete, c, now) => CorrectFrame(meet, db, unit, athlete, c, now);
    case ImportTimingRow(row, source) => ImportFrame(meet, db, row, source);
    case ResolveTiming(index, choice, now) => ResolveTimingFrame(meet, db, index, choice, now);
    case TimingStopped(index, choice, now) => TimingCutFrame(meet, db, index, choice, now);
    case _ =>
  }

  lemma BulkKeepsBars(meet: Meet, db: Db, unit: string, n: nat)
    ensures R.BulkMarkRemainingDNS(meet, db, unit).0.bars == db.bars && R.BulkCut(meet, db, unit, n).bars == db.bars
  {
    var open := R.Unresulted(db, unit, meet.roster);
    DNSKeepsBars(db, unit, open);
    DNSKeepsBars(db, unit, if n < |open| then open[..n] else open);
  }

  lemma TrackKeepsBars(meet: Meet, db: Db, unit: string, track: R.TrackInput)
    ensures R.SaveTrackResult(meet, db, unit, track).0.bars == db.bars
  {}

  lemma {:induction false} DNSKeepsBars(db: Db, unit: string, athletes: seq<string>)
    ensures R.MarkDNS(db, unit, athletes).0.bars == db.bars
  {
    if athletes != [] { DNSKeepsBars(db, unit, athletes[..|athletes| - 1]); }
  }

  // Once announced, a unit is closed: over every run its trials stay as they are.
  lemma {:induction false} AnnouncedIsClosed(meet: Meet, db: Db, run: seq<Step>, unit: string)
    requires db.Announced(unit)
    ensures SameTrials(db, Exec(meet, db, run), unit)
  {
    if run != [] {
      var init, s := run[..|run| - 1], run[|run| - 1];
      var before := Exec(meet, db, init);
      AnnouncedIsClosed(meet, db, init, unit);
      AnnouncementsGrow(meet, db, init, unit);
      if IsLockStep(s) {
        LockStepFrame(meet, before, s);
      } else if IsCaptureStep(s) {
        CaptureClosed(meet, before, s, unit);
      } else {
        BarsClosed(meet, before, s, unit);
      }
      SameTrialsTransitive(db, before, Apply(meet, before, s), unit);
    }
  }

  lemma CorrectableExactly(meet: Meet, db: Db, unit: string, athlete: string, c: R.Correction, now: int)
    ensures var (next, done) := R.CorrectResult(meet, db, unit, athlete, c, now);
            && (done.Ok? <==> Correctable(meet, db, unit, athlete, c, now))
            && (done.Err? ==> next == db) && (done.Ok? ==> next.Announced(unit))
  {
    RowExactly(if unit in meet.units then meet.units[unit].family else OtherFamily, c);
  }

  // The corrected row is one the family takes.
  lemma RowExactly(family: Family, c: R.Correction)
    ensures R.CorrectedRow(family, c).Ok? <==>
            (if c.status != Unset then ValidCaptureStatus(c.status, c.detail)
             else if family.Track? then ReadableTime(c.mark, c.timing)
             else ReadableMark(c.mark))
    ensures var row := R.CorrectedRow(family, c);
            row.Ok? ==> row.value.status == c.status
                        && (c.status == Unset && family.Track? ==>
                              row.value.timing == c.timing && Ok(row.value.mark) == R.TimedMark(c.mark, c.timing))
                        && (c.status == Unset && !family.Track? ==>
                              row.value.timing == NoTiming && row.value.mark == Canonical(c.mark))
  {}

  // A correction succeeds exactly when it is correctable, changes nothing otherwise, and leaves
  // its unit announced and, over every later run, closed to capture.
  lemma CorrectionExactly(meet: Meet, db: Db, unit: string, athlete: string, c: R.Correction, now: int, later: seq<Step>)
    ensures var (next, done) := R.CorrectResult(meet, db, unit, athlete, c, now);
            && (done.Ok? <==> Correctable(meet, db, unit, athlete, c, now))
            && (done.Err? ==> next == db)
            && (done.Ok? ==> next.Announced(unit) && Exec(meet, next, later).Announced(unit)
                             && SameTrials(db, Exec(meet, next, later), unit))
  {
    var (next, done) := R.CorrectResult(meet, db, unit, athlete, c, now);
    CorrectableExactly(meet, db, unit, athlete, c, now);
    CorrectFrame(meet, db, unit, athlete, c, now);
    if done.Ok? {
      assert SameTrials(db, next, unit);
      AnnouncementsGrow(meet, next, later, unit);
      AnnouncedIsClosed(meet, next, later, unit);
      SameTrialsTransitive(db, next, Exec(meet, next, later), unit);
    }
  }

  // --- A unit nobody announced ---

  const PIT: Meet := Meet(map["lj" := UnitInfo(Horizontal, false, 3)], ["ann", "bea"], {}, map[], map[], NoPoints, true)

  const ABSENT := R.Correction("", NoTiming, DNS, "", "x", "")

  const FOUL := Input("bea", Attempt(1, Foul, "", None), 0)

  // Before anything was captured or announced, one correction announces the unit, and the next
  // trial, which would have been taken, is refused.
  lemma CorrectionAnnounces()
    ensures !EMPTY_DB.Announced("lj") && SaveFieldAttempt(PIT, EMPTY_DB, "lj", FOUL).1.Ok?
    ensures var (next, done) := R.CorrectResult(PIT, EMPTY_DB, "lj", "ann", ABSENT, 0);
            && next == Exec(PIT, EMPTY_DB, [Correct("lj", "ann", ABSENT, 0)])
            && done.Ok? && next.Announced("lj") && SaveFieldAttempt(PIT, next, "lj", FOUL) == (next, Err(Announced))
  {
    var s := Correct("lj", "ann", ABSENT, 0);
    assert [s][..0] == [];
    CorrectionExactly(PIT, EMPTY_DB, "lj", "ann", ABSENT, 0, []);
  }
}
