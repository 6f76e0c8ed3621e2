// Settled results are versioned like trials: no step deletes one or rewrites it under the same
// version, so of two captures made from the same version the later one is refused.
module ResultVersions {
  import opened Basics
  import opened Tables
  import opened Capture
  import opened Protocol
  import opened AnnouncedResults
  import R = Results

  ghost predicate ResultsEvolve(db: Db, next: Db) {
    forall key <- db.results ::
      key in next.results
      && (next.results[key] == db.results[key] || next.results[key].version > db.results[key].version)
  }

  lemma EvolveTransitive(a: Db, b: Db, c: Db)
    requires ResultsEvolve(a, b) && ResultsEvolve(b, c)
    ensures ResultsEvolve(a, c)
  {
    forall key <- a.results
      ensures key in c.results && (c.results[key] == a.results[key] || c.results[key].version > a.results[key].version)
    {
      assert key in b.results;
    }
  }

  lemma UpsertEvolves(db: Db, next: Db, unit: string, athlete: string, r: Settled)
    requires next.results == Upsert(db.results, unit, athlete, r)
    ensures ResultsEvolve(db, next)
  {}

  lemma SaveEvolves(meet: Meet, db: Db, unit: string, input: Input)
    ensures ResultsEvolve(db, SaveFieldAttempt(meet, db, unit, input).0)
  {
    var (next, row) := SaveFieldAttempt(meet, db, unit, input);
    if row.Ok? {
      WrittenElsewhere(meet, db, unit, input);
      UpsertEvolves(db, next, unit, input.athlete, SettledFrom(SeriesOf(meet, next.trials, unit, input.athlete)));
    } else {
      SaveRefused(meet, db, unit, input);
    }
  }

  lemma SaveRefused(meet: Meet, db: Db, unit: string, input: Input)
    ensures var (next, row) := SaveFieldAttempt(meet, db, unit, input);
            row.Err? ==> next == db
  {}

  lemma CorrectEvolves(meet: Meet, db: Db, unit: string, athlete: string, c: R.Correction, now: int)
    ensures ResultsEvolve(db, R.CorrectResult(meet, db, unit, athlete, c, now).0)
  {
    if unit in meet.units {
      var row := R.CorrectedRow(meet.units[unit].family, c);
      if row.Ok? {
        UpsertEvolves(db, R.Announce(db.(results := Upsert(db.results, unit, athlete, row.value)), unit, now),
                      unit, athlete, row.value);
      }
    }
  }

  lemma RowEvolves(meet: Meet, db: Db, unit: string, athlete: string, row: TimingRow, source: Source)
    ensures ResultsEvolve(db, R.ApplyTimingRow(meet, db, unit, athlete, row, source).0)
  {
    var (next, done) := R.ApplyTimingRow(meet, db, unit, athlete, row, source);
    WrittenRow(meet, db, unit, athlete, row, source);
    if done.Ok? { UpsertEvolves(db, next, unit, athlete, AppliedRow(row, source)); }
  }

  lemma OptimisticEvolves(db: Db, unit: string, athlete: string, r: Settled, expected: int)
    ensures ResultsEvolve(db, R.SaveOptimistic(db, unit, athlete, r, expected).0)
  {
    var (next, done) := R.SaveOptimistic(db, unit, athlete, r, expected);
    if done.Ok? { UpsertEvolves(db, next, unit, athlete, r); }
  }

  lemma {:induction false} DNSEvolves(db: Db, unit: string, athletes: seq<string>)
    ensures ResultsEvolve(db, R.MarkDNS(db, unit, athletes).0)
  {
    if athletes != [] {
      var init, last := athletes[..|athletes| - 1], athletes[|athletes| - 1];
      DNSEvolves(db, unit, init);
      OptimisticEvolves(R.MarkDNS(db, unit, init).0, unit, last, R.DNS_ROW, 0);
      EvolveTransitive(db, R.MarkDNS(db, unit, init).0, R.MarkDNS(db, unit, athletes).0);
    }
  }

  lemma TrackWrites(meet: Meet, db: Db, unit: string, input: R.TrackInput)
    ensures var (next, done) := R.SaveTrackResult(meet, db, unit, input);
            var row := R.CapturedRow(meet, unit, input);
            if done.Ok? then row.Ok? && next.results == Upsert(db.results, unit, input.athlete, row.value) else next == db
  {}

  lemma BarEvolves(meet: Meet, db: Db, unit: string, input: R.BarInput)
    ensures ResultsEvolve(db, R.SaveVerticalTrial(meet, db, unit, input).0)
  {
    var (next, done) := R.SaveVerticalTrial(meet, db, unit, input);
    if done.Ok? {
      var heights := db.heights[unit].heights;
      UpsertEvolves(db, next, unit, input.athlete,
                    R.SettledBars(heights, R.BarsOf(next.bars, unit, input.athlete)));
    }
  }

  lemma ResultStepEvolves(meet: Meet, db: Db, s: Step)
    ensures ResultsEvolve(db, ResultStep(meet, db, s))
  {
    match s
    case Correct(unit, athlete, c, now) => CorrectEvolves(meet, db, unit, athlete, c, now);
    case CaptureTrack(unit, track) =>
      TrackWrites(meet, db, unit, track);
      if R.SaveTrackResult(meet, db, unit, track).1.Ok? {
        UpsertEvolves(db, R.SaveTrackResult(meet, db, unit, track).0, unit, track.athlete, R.CapturedRow(meet, unit, track).value);
      }
    case CaptureBar(unit, bar) => BarEvolves(meet, db, unit, bar);
    case BulkDNS(unit) => DNSEvolves(db, unit, R.Unresulted(db, unit, meet.roster));
    case ImportTimingRow(row, source) => ImportEvolves(meet, db, row, source);
    case BulkStopped(unit, n) =>
      var open := R.Unresulted(db, unit, meet.roster);
      DNSEvolves(db, unit, if n < |open| then open[..n] else open);
    case ResolveTiming(index, choice, now) => ResolutionEvolves(meet, db, index, choice, now);
    case TimingStopped(index, choice, now) =>
      if index < |db.conflicts| { ChoiceEvolves(meet, db, db.conflicts[index], choice, now); }
    case _ =>
  }

  lemma ImportEvolves(meet: Meet, db: Db, row: TimingRow, source: Source)
    ensures ResultsEvolve(db, R.ImportRow(meet, db, row, source).0)
  {
    var t := R.Resolved(meet, db, row);
    if t.unit.Some? && t.athlete.Some? { RowEvolves(meet, db, t.unit.value, t.athlete.value, row, source); }
  }

  lemma ChoiceEvolves(meet: Meet, db: Db, c: Conflict, choice: R.Choice, now: int)
    ensures ResultsEvolve(db, R.WriteChoice(meet, db, c, choice, now).0)
  {
    if c.unit.Some? {
      var unit, athlete, row := c.unit.value, R.ChosenAthlete(c, choice), R.ChosenRow(db, c, choice);
      RowEvolves(meet, db, unit, athlete, row, c.source);
      CorrectEvolves(meet, db, unit, athlete, R.CorrectionFrom(row, choice), now);
    }
  }

  lemma ResolutionEvolves(meet: Meet, db: Db, index: nat, choice: R.Choice, now: int)
    ensures ResultsEvolve(db, R.ResolveTimingConflict(meet, db, index, choice, now).0)
  {
    if index < |db.conflicts| {
      ChoiceEvolves(meet, db, db.conflicts[index], choice, now);
      if !choice.action.Keep? && !choice.action.Discard? { ClosingKeepsResults(meet, db, index, choice, now); }
    }
  }

  // No step deletes a settled result, and one that changes gets a higher version.
  lemma StepEvolves(meet: Meet, db: Db, s: Step)
    ensures ResultsEvolve(db, Apply(meet, db, s))
  {
    if IsLockStep(s) {
      LockStepFrame(meet, db, s);
    } else if IsCaptureStep(s) {
      CaptureStepFrame(meet, db, s);
      var w := TrialWrite(meet, db, s);
      if w.Some? { SaveEvolves(meet, db, w.value.0, w.value.1); }
    } else {
      ResultStepEvolves(meet, db, s);
    }
  }

  lemma {:induction false} RunEvolves(meet: Meet, db: Db, run: seq<Step>)
    ensures ResultsEvolve(db, Exec(meet, db, run))
  {
    if run != [] {
      var before := Exec(meet, db, run[..|run| - 1]);
      RunEvolves(meet, db, run[..|run| - 1]);
      StepEvolves(meet, before, run[|run| - 1]);
      EvolveTransitive(db, before, Exec(meet, db, run));
    }
  }

  // --- Optimistic captures ---

  predicate SameVersion(db: Db, key: (string, string), expected: int) {
    if expected > 0 then key in db.results && db.results[key].version == expected else key !in db.results
  }

  lemma OptimisticExactly(meet: Meet, db: Db, unit: string, input: R.TrackInput)
    ensures var done := R.SaveTrackResult(meet, db, unit, input).1;
            done.Ok? && input.expected.Some? ==> SameVersion(db, (unit, input.athlete), input.expected.value)
  {}

  // Two operators render a track form from the same version. Once one has saved, whatever
  // happens in between, the other is refused and changes nothing.
  lemma LostUpdateRefused(meet: Meet, db: Db, unit: string, first: R.TrackInput, between: seq<Step>, second: R.TrackInput)
    requires first.expected.Some? && second.expected == first.expected && second.athlete == first.athlete
    requires R.SaveTrackResult(meet, db, unit, first).1.Ok?
    ensures var later := Exec(meet, R.SaveTrackResult(meet, db, unit, first).0, between);
            R.SaveTrackResult(meet, later, unit, second).1.Err? && R.SaveTrackResult(meet, later, unit, second).0 == later
  {
    var saved, key := R.SaveTrackResult(meet, db, unit, first).0, (unit, first.athlete);
    OptimisticExactly(meet, db, unit, first);
    TrackWrites(meet, db, unit, first);
    assert key in saved.results && saved.results[key].version > first.expected.value;
    RunEvolves(meet, saved, between);
    var later := Exec(meet, saved, between);
    assert key in later.results && later.results[key].version > first.expected.value;
    OptimisticExactly(meet, later, unit, second);
    TrackWrites(meet, later, unit, second);
  }
}
