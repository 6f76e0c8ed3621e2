// Vertical jumps: what the settled result of an unannounced vertical unit says of the stored bar
// trials, and which change of the bar progression makes it say something else.
module BarResults {
  import opened Basics
  import opened Vocabulary
  import opened Tables
  import opened Capture
  import opened Protocol
  import opened Invariants
  import opened AnnouncedResults
  import opened ResultVersions
  import R = Results
  import V = Vertical

  function HeightsOf(db: Db, unit: string): seq<string> {
    if unit in db.heights then db.heights[unit].heights else []
  }

  function StoredBars(db: Db, unit: string, athlete: string): seq<V.Trial> {
    R.BarsOf(db.bars, unit, athlete)
  }

  // A result exactly where a bar trial is stored, with the status of the trials. The height is left
  // out: no height at all gives a blank mark.
  ghost predicate BarsShown(db: Db, unit: string, athlete: string) {
    var trials, key := StoredBars(db, unit, athlete), (unit, athlete);
    if trials == [] then key !in db.results
    else key in db.results && db.results[key].(version := 0, mark := "") == R.SettledBars([], trials)
  }

  // The result, if any, shows the best height cleared as the progression has it, or none.
  ghost predicate BestShown(db: Db, unit: string, athlete: string) {
    var best, heights := V.HighestCleared(StoredBars(db, unit, athlete)), HeightsOf(db, unit);
    best < |heights| && ((unit, athlete) in db.results ==>
                           db.results[(unit, athlete)].mark == if best < 0 then "" else heights[best])
  }

  // What is shown, in so many words: retired if any trial says so, otherwise without a mark if nothing
  // was cleared.
  lemma ShownSays(db: Db, unit: string, athlete: string)
    requires BarsShown(db, unit, athlete)
    ensures var trials, key := StoredBars(db, unit, athlete), (unit, athlete);
            && (key in db.results <==> trials != [])
            && (key in db.results ==>
                  && db.results[key].source == Operator && db.results[key].timing == NoTiming && db.results[key].detail == ""
                  && db.results[key].status == if exists t <- trials :: t.kind.Retired? then Retired
                                               else if exists t <- trials :: t.kind.Cleared? && t.height >= 0 then Unset else NM)
  {
    var trials, key := StoredBars(db, unit, athlete), (unit, athlete);
    V.HighestIs(trials);
    if trials != [] {
      var r, s := db.results[key], R.SettledBars([], trials);
      assert r.(version := 0, mark := "") == s;
      assert r.status == s.status && r.timing == s.timing && r.detail == s.detail && r.source == s.source;
    }
  }

  // The stored trials are listed height by height, then trial by trial, and there are no others.
  lemma StoredIsListed(db: Db, unit: string, athlete: string)
    ensures var trials := StoredBars(db, unit, athlete);
            && (forall i, j :: 0 <= i < j < |trials| ==>
                  trials[i].height < trials[j].height || (trials[i].height == trials[j].height && trials[i].number < trials[j].number))
            && (forall t: V.Trial :: t in trials <==>
                  && t.height >= 0 && 1 <= t.number <= 3 && BarCell(unit, athlete, t.height, t.number) in db.bars
                  && db.bars[BarCell(unit, athlete, t.height, t.number)].kind == t.kind)
  {
    var n := R.HeightCount(db.bars, unit, athlete);
    ListedUpTo(db.bars, unit, athlete, n);
    forall t: V.Trial | BarCell(unit, athlete, t.height, t.number) in db.bars ensures t.height < n {
      assert t.height in R.HeightsTried(db.bars, unit, athlete);
    }
  }

  lemma {:induction false} ListedUpTo(bars: map<BarCell, StoredBar>, unit: string, athlete: string, n: nat)
    ensures var trials := R.BarsUpTo(bars, unit, athlete, n);
            && (forall i, j :: 0 <= i < j < |trials| ==>
                  trials[i].height < trials[j].height || (trials[i].height == trials[j].height && trials[i].number < trials[j].number))
            && (forall t: V.Trial :: t in trials <==>
                  && 0 <= t.height < n && 1 <= t.number <= 3 && BarCell(unit, athlete, t.height, t.number) in bars
                  && bars[BarCell(unit, athlete, t.height, t.number)].kind == t.kind)
  {
    if n > 0 {
      ListedUpTo(bars, unit, athlete, n - 1);
      ListedAt(bars, unit, athlete, n - 1, 3);
    }
  }

  lemma {:induction false} ListedAt(bars: map<BarCell, StoredBar>, unit: string, athlete: string, height: nat, n: nat)
    ensures var trials := R.BarsAt(bars, unit, athlete, height, n);
            && (forall i, j :: 0 <= i < j < |trials| ==> trials[i].number < trials[j].number)
            && (forall t: V.Trial :: t in trials <==>
                  && t.height == height && 1 <= t.number <= n && BarCell(unit, athlete, t.height, t.number) in bars
                  && bars[BarCell(unit, athlete, t.height, t.number)].kind == t.kind)
  {
    if n > 0 { ListedAt(bars, unit, athlete, height, n - 1); }
  }

  ghost predicate AllShown(meet: Meet, db: Db) {
    forall unit: string, athlete: string ::
      meet.IsUnit(unit, VerticalJump) && !db.Announced(unit) ==> BarsShown(db, unit, athlete)
  }

  ghost predicate AllBest(meet: Meet, db: Db) {
    forall unit: string, athlete: string ::
      meet.IsUnit(unit, VerticalJump) && !db.Announced(unit) ==> BestShown(db, unit, athlete)
  }

  // --- Bar capture ---

  lemma {:induction false} HeightAfterWrite(bars: map<BarCell, StoredBar>, cell: BarCell, row: StoredBar,
                                            unit: string, athlete: string, height: nat, n: nat)
    ensures cell.unit != unit || cell.athlete != athlete ==>
              R.BarsAt(bars[cell := row], unit, athlete, height, n) == R.BarsAt(bars, unit, athlete, height, n)
    ensures cell.unit == unit && cell.athlete == athlete && cell.height == height && 1 <= cell.number <= n ==>
              R.BarsAt(bars[cell := row], unit, athlete, height, n) != []
  {
    if n > 0 { HeightAfterWrite(bars, cell, row, unit, athlete, height, n - 1); }
  }

  lemma {:induction false} BarsAfterWrite(bars: map<BarCell, StoredBar>, cell: BarCell, row: StoredBar,
                                          unit: string, athlete: string, n: nat)
    ensures cell.unit != unit || cell.athlete != athlete ==>
              R.BarsUpTo(bars[cell := row], unit, athlete, n) == R.BarsUpTo(bars, unit, athlete, n)
    ensures cell.unit == unit && cell.athlete == athlete && 0 <= cell.height < n && 1 <= cell.number <= 3 ==>
              R.BarsUpTo(bars[cell := row], unit, athlete, n) != []
  {
    if n > 0 {
      BarsAfterWrite(bars, cell, row, unit, athlete, n - 1);
      HeightAfterWrite(bars, cell, row, unit, athlete, n - 1, 3);
    }
  }

  // Nothing another athlete or unit is concerned with; at least one trial of one's own.
  lemma StoredAfterWrite(db: Db, next: Db, cell: BarCell, row: StoredBar, unit: string, athlete: string)
    requires next.bars == db.bars[cell := row] && cell.height >= 0 && 1 <= cell.number <= 3
    ensures cell.unit != unit || cell.athlete != athlete ==>
              StoredBars(next, unit, athlete) == StoredBars(db, unit, athlete)
    ensures cell.unit == unit && cell.athlete == athlete ==> StoredBars(next, unit, athlete) != []
  {
    var n := R.HeightCount(next.bars, unit, athlete);
    BarsAfterWrite(db.bars, cell, row, unit, athlete, n);
    if cell.unit == unit && cell.athlete == athlete {
      assert cell in next.bars && cell.height in R.HeightsTried(next.bars, unit, athlete);
    } else {
      assert R.HeightsTried(next.bars, unit, athlete) == R.HeightsTried(db.bars, unit, athlete);
    }
  }

  // What a successful bar capture wrote.
  lemma BarWrites(meet: Meet, db: Db, unit: string, input: R.BarInput)
    ensures var (next, done) := R.SaveVerticalTrial(meet, db, unit, input);
            var cell := BarCell(unit, input.athlete, input.trial.height, input.trial.number);
            if done.Err? then next == db else
            && meet.IsUnit(unit, VerticalJump) && !db.Announced(unit) && cell.height >= 0 && 1 <= cell.number <= 3
            && cell in next.bars && next.bars == db.bars[cell := next.bars[cell]]
            && V.HighestCleared(StoredBars(next, unit, input.athlete)) < |HeightsOf(db, unit)|
            && next == db.(bars := next.bars, results :=
                 Upsert(db.results, unit, input.athlete, R.SettledBars(HeightsOf(db, unit), StoredBars(next, unit, input.athlete))))
  {}

  lemma BarSettles(meet: Meet, db: Db, unit: string, input: R.BarInput, u: string, a: string)
    requires R.SaveVerticalTrial(meet, db, unit, input).1.Ok?
    ensures var next := R.SaveVerticalTrial(meet, db, unit, input).0;
            if u == unit && a == input.athlete then BarsShown(next, u, a) && BestShown(next, u, a)
            else (BarsShown(db, u, a) ==> BarsShown(next, u, a)) && (BestShown(db, u, a) ==> BestShown(next, u, a))
  {
    var next := R.SaveVerticalTrial(meet, db, unit, input).0;
    var cell := BarCell(unit, input.athlete, input.trial.height, input.trial.number);
    BarWrites(meet, db, unit, input);
    StoredAfterWrite(db, next, cell, next.bars[cell], u, a);
    if u == unit && a == input.athlete { SettledShown(db, next, u, a); }
  }

  lemma SettledShown(db: Db, next: Db, unit: string, athlete: string)
    requires StoredBars(next, unit, athlete) != [] && next.heights == db.heights
    requires V.HighestCleared(StoredBars(next, unit, athlete)) < |HeightsOf(db, unit)|
    requires next.results
             == Upsert(db.results, unit, athlete, R.SettledBars(HeightsOf(db, unit), StoredBars(next, unit, athlete)))
    ensures BarsShown(next, unit, athlete) && BestShown(next, unit, athlete)
  {}

  // --- Every other step leaves unannounced vertical units alone ---

  // Bars and heights as they were; a unit whose results differ is not vertical, or is announced by now.
  ghost predicate SparesBars(meet: Meet, db: Db, next: Db) {
    && next.bars == db.bars && next.heights == db.heights && (forall u: string :: db.Announced(u) ==> next.Announced(u))
    && forall u: string :: meet.IsUnit(u, VerticalJump) && !next.Announced(u) ==> SameResults(db, next, u)
  }

  lemma SparedAgrees(meet: Meet, db: Db, next: Db)
    requires SparesBars(meet, db, next)
    ensures AllShown(meet, db) ==> AllShown(meet, next)
    ensures AllBest(meet, db) ==> AllBest(meet, next)
  {
    forall u: string, a: string | meet.IsUnit(u, VerticalJump) && !next.Announced(u)
      ensures !db.Announced(u) && (BarsShown(db, u, a) ==> BarsShown(next, u, a)) && (BestShown(db, u, a) ==> BestShown(next, u, a))
    {
      SparedAthlete(db, next, u, a);
    }
  }

  lemma SparedAthlete(db: Db, next: Db, unit: string, athlete: string)
    requires next.bars == db.bars && next.heights == db.heights && SameResults(db, next, unit)
    ensures BarsShown(db, unit, athlete) ==> BarsShown(next, unit, athlete)
    ensures BestShown(db, unit, athlete) ==> BestShown(next, unit, athlete)
  {
    assert (unit, athlete) in next.results <==> (unit, athlete) in db.results;
  }

  lemma UpsertSpares(meet: Meet, db: Db, next: Db, unit: string, athlete: string, r: Settled)
    requires next.bars == db.bars && next.heights == db.heights && next.announcements == db.announcements
    requires !meet.IsUnit(unit, VerticalJump) && next.results == Upsert(db.results, unit, athlete, r)
    ensures SparesBars(meet, db, next)
  {
    UpsertElsewhere(db.results, unit, athlete, r);
  }

  lemma SaveSpares(meet: Meet, db: Db, unit: string, input: Input)
    ensures SparesBars(meet, db, SaveFieldAttempt(meet, db, unit, input).0)
  {
    var (next, row) := SaveFieldAttempt(meet, db, unit, input);
    SaveFrame(meet, db, unit, input);
    if row.Ok? {
      WrittenElsewhere(meet, db, unit, input);
      UpsertSpares(meet, db, next, unit, input.athlete, SettledFrom(SeriesOf(meet, next.trials, unit, input.athlete)));
    } else {
      SaveRefused(meet, db, unit, input);
    }
  }

  lemma CorrectSpares(meet: Meet, db: Db, unit: string, athlete: string, c: R.Correction, now: int)
    ensures SparesBars(meet, db, R.CorrectResult(meet, db, unit, athlete, c, now).0)
  {
    if unit in meet.units {
      var row := R.CorrectedRow(meet.units[unit].family, c);
      if row.Ok? { AmendSpares(meet, db, unit, athlete, row.value, now); }
    }
  }

  // Amending a row and announcing its unit in the same step.
  lemma AmendSpares(meet: Meet, db: Db, unit: string, athlete: string, r: Settled, now: int)
    ensures SparesBars(meet, db, R.Announce(db.(results := Upsert(db.results, unit, athlete, r)), unit, now))
  {
    UpsertElsewhere(db.results, unit, athlete, r);
  }

  lemma TrackSpares(meet: Meet, db: Db, unit: string, input: R.TrackInput)
    ensures SparesBars(meet, db, R.SaveTrackResult(meet, db, unit, input).0)
  {
    var (next, done) := R.SaveTrackResult(meet, db, unit, input);
    TrackFrame(meet, db, unit, input);
    TrackWrites(meet, db, unit, input);
    if done.Ok? {
      TrackOnly(meet, db, unit, input);
      UpsertSpares(meet, db, next, unit, input.athlete, R.CapturedRow(meet, unit, input).value);
    }
  }

  lemma TrackOnly(meet: Meet, db: Db, unit: string, input: R.TrackInput)
    ensures var (next, done) := R.SaveTrackResult(meet, db, unit, input);
            next.bars == db.bars && next.heights == db.heights && (done.Ok? ==> meet.IsUnit(unit, Track))
  {}

  lemma RowSpares(meet: Meet, db: Db, unit: string, athlete: string, row: TimingRow, source: Source)
    requires !meet.IsUnit(unit, VerticalJump)
    ensures SparesBars(meet, db, R.ApplyTimingRow(meet, db, unit, athlete, row, source).0)
  {
    var (next, done) := R.ApplyTimingRow(meet, db, unit, athlete, row, source);
    WrittenRow(meet, db, unit, athlete, row, source);
    if done.Ok? { UpsertSpares(meet, db, next, unit, athlete, AppliedRow(row, source)); }
  }

  lemma SparesTransitive(meet: Meet, a: Db, b: Db, c: Db)
    requires SparesBars(meet, a, b) && SparesBars(meet, b, c)
    ensures SparesBars(meet, a, c)
  {
    forall u: string | meet.IsUnit(u, VerticalJump) && !c.Announced(u) ensures SameResults(a, c, u) {
      assert !b.Announced(u) && SameResults(a, b, u) && SameResults(b, c, u);
      forall who: string
        ensures (u, who) in c.results <==> (u, who) in a.results
        ensures (u, who) in a.results ==> c.results[(u, who)] == a.results[(u, who)]
      {
        assert (u, who) in b.results <==> (u, who) in a.results;
      }
    }
  }

  lemma {:induction false} DNSSpares(meet: Meet, db: Db, unit: string, athletes: seq<string>)
    requires !meet.IsUnit(unit, VerticalJump)
    ensures SparesBars(meet, db, R.MarkDNS(db, unit, athletes).0)
  {
    if athletes != [] {
      var init, last := athletes[..|athletes| - 1], athletes[|athletes| - 1];
      var before := R.MarkDNS(db, unit, init).0;
      DNSSpares(meet, db, unit, init);
      var (next, done) := R.SaveOptimistic(before, unit, last, R.DNS_ROW, 0);
      if done.Ok? { UpsertSpares(meet, before, next, unit, last, R.DNS_ROW); }
      SparesTransitive(meet, db, before, next);
    }
  }

  lemma BulkSpares(meet: Meet, db: Db, unit: string)
    ensures SparesBars(meet, db, R.BulkMarkRemainingDNS(meet, db, unit).0)
  {
    if !meet.IsUnit(unit, VerticalJump) { DNSSpares(meet, db, unit, R.Unresulted(db, unit, meet.roster)); }
  }

  lemma BulkCutSpares(meet: Meet, db: Db, unit: string, n: nat)
    ensures SparesBars(meet, db, R.BulkCut(meet, db, unit, n))
  {
    var open := R.Unresulted(db, unit, meet.roster);
    if meet.IsUnit(unit, Track) { DNSSpares(meet, db, unit, if n < |open| then open[..n] else open); }
  }

  lemma ImportSpares(meet: Meet, db: Db, row: TimingRow, source: Source)
    requires meet.Valid()
    ensures SparesBars(meet, db, R.ImportRow(meet, db, row, source).0)
  {
    ImportFrame(meet, db, row, source);
    var t := R.Resolved(meet, db, row);
    if t.unit.Some? && t.athlete.Some? { RowSpares(meet, db, t.unit.value, t.athlete.value, row, source); }
  }

  lemma ChoiceSpares(meet: Meet, db: Db, c: Conflict, choice: R.Choice, now: int)
    requires ConflictsOnTrack(meet, db) && c in db.conflicts
    ensures SparesBars(meet, db, R.WriteChoice(meet, db, c, choice, now).0)
  {
    if c.unit.Some? {
      var unit, athlete, row := c.unit.value, R.ChosenAthlete(c, choice), R.ChosenRow(db, c, choice);
      RowSpares(meet, db, unit, athlete, row, c.source);
      CorrectSpares(meet, db, unit, athlete, R.CorrectionFrom(row, choice), now);
    }
  }

  lemma ResolutionSpares(meet: Meet, db: Db, index: nat, choice: R.Choice, now: int)
    requires ConflictsOnTrack(meet, db)
    ensures SparesBars(meet, db, R.ResolveTimingConflict(meet, db, index, choice, now).0)
  {
    if index < |db.conflicts| {
      if choice.action.Keep? || choice.action.Discard? {
        SetAsideSpares(meet, db, index, choice, now);
      } else {
        WrittenSpares(meet, db, index, choice, now);
      }
    }
  }

  lemma SetAsideSpares(meet: Meet, db: Db, index: nat, choice: R.Choice, now: int)
    requires index < |db.conflicts| && (choice.action.Keep? || choice.action.Discard?)
    ensures SparesBars(meet, db, R.ResolveTimingConflict(meet, db, index, choice, now).0)
  {
    SetConflictFrame(db, index, if choice.action.Keep? then Kept else Discarded);
  }

  lemma WrittenSpares(meet: Meet, db: Db, index: nat, choice: R.Choice, now: int)
    requires ConflictsOnTrack(meet, db) && index < |db.conflicts| && !choice.action.Keep? && !choice.action.Discard?
    ensures SparesBars(meet, db, R.ResolveTimingConflict(meet, db, index, choice, now).0)
  {
    var saved := R.WriteChoice(meet, db, db.conflicts[index], choice, now).0;
    ChoiceSpares(meet, db, db.conflicts[index], choice, now);
    ClosingKeepsResults(meet, db, index, choice, now);
    ResolveTimingFrame(meet, db, index, choice, now);
    SameSpares(meet, db, saved, R.ResolveTimingConflict(meet, db, index, choice, now).0);
  }

  lemma SameSpares(meet: Meet, db: Db, saved: Db, next: Db)
    requires SparesBars(meet, db, saved) && next.results == saved.results && next.announcements == saved.announcements
    requires next.bars == db.bars && next.heights == db.heights
    ensures SparesBars(meet, db, next)
  {}

  lemma ResultStepSpares(meet: Meet, db: Db, s: Step)
    requires meet.Valid() && ConflictsOnTrack(meet, db) && !s.CaptureBar? && !s.SetHeights?
    ensures SparesBars(meet, db, ResultStep(meet, db, s))
  {
    match s
    case Correct(unit, athlete, c, now) => CorrectSpares(meet, db, unit, athlete, c, now);
    case CaptureTrack(unit, track) => TrackSpares(meet, db, unit, track);
    case BulkDNS(unit) => BulkSpares(meet, db, unit);
    case ImportTimingRow(row, source) => ImportSpares(meet, db, row, source);
    case BulkStopped(unit, n) => BulkCutSpares(meet, db, unit, n);
    case ResolveTiming(index, choice, now) => ResolutionSpares(meet, db, index, choice, now);
    case TimingStopped(index, choice, now) =>
      if index < |db.conflicts| { ChoiceSpares(meet, db, db.conflicts[index], choice, now); }
    case _ =>
  }

  lemma StepSpares(meet: Meet, db: Db, s: Step)
    requires meet.Valid() && ConflictsOnTrack(meet, db) && !s.CaptureBar? && !s.SetHeights?
    ensures SparesBars(meet, db, Apply(meet, db, s))
  {
    if IsLockStep(s) {
      LockStepFrame(meet, db, s);
    } else if IsCaptureStep(s) {
      CaptureStepSpares(meet, db, s);
    } else {
      ResultStepSpares(meet, db, s);
    }
  }

  lemma CaptureStepSpares(meet: Meet, db: Db, s: Step)
    requires IsCaptureStep(s)
    ensures SparesBars(meet, db, CaptureStep(meet, db, s))
  {
    var w := TrialWrite(meet, db, s);
    CaptureStepFrame(meet, db, s);
    if w.Some? { SaveSpares(meet, db, w.value.0, w.value.1); }
    QueueSpares(meet, db, AfterWrite(meet, db, w), CaptureStep(meet, db, s));
  }

  // Ledger and queue do not matter to bars and results.
  lemma QueueSpares(meet: Meet, db: Db, saved: Db, next: Db)
    requires SparesBars(meet, db, saved) && OnlyQueue(saved, next)
    ensures SparesBars(meet, db, next)
  {}

  // --- Changing the progression ---

  // The best height of everyone in the unit stands under the new list as it did under the old.
  ghost predicate BestsStand(db: Db, unit: string, heights: seq<string>) {
    forall athlete: string :: BestStands(HeightsOf(db, unit), heights, StoredBars(db, unit, athlete))
  }

  predicate BestStands(was: seq<string>, heights: seq<string>, trials: seq<V.Trial>) {
    var best := V.HighestCleared(trials);
    0 <= best < |was| ==> best < |heights| && heights[best] == was[best]
  }

  // A step that sets heights successfully in a unit not announced leaves every best as it was.
  ghost predicate KeepsBests(meet: Meet, db: Db, s: Step) {
    s.SetHeights? && R.SetHeights(meet, db, s.unit, s.heights, s.expected).1.Ok? && !db.Announced(s.unit) ==>
      BestsStand(db, s.unit, s.heights)
  }

  // A version was expected, or there is no list yet: the case the code guards.
  predicate Guarded(db: Db, s: Step) {
    s.SetHeights? ==> s.expected > 0 || s.unit !in db.heights
  }

  lemma GuardedKeeps(meet: Meet, db: Db, s: Step)
    requires Guarded(db, s)
    ensures KeepsBests(meet, db, s)
  {}

  lemma HeightsStored(meet: Meet, db: Db, unit: string, heights: seq<string>, expected: int)
    ensures var (next, done) := R.SetHeights(meet, db, unit, heights, expected);
            && next == db.(heights := next.heights)
            && (done.Err? ==> next == db)
            && (done.Ok? ==> meet.IsUnit(unit, VerticalJump))
            && forall u: string :: HeightsOf(next, u) == if done.Ok? && u == unit then heights else HeightsOf(db, u)
  {}

  lemma BestExactly(db: Db, next: Db, unit: string, athlete: string)
    requires next == db.(heights := next.heights) && BarsShown(db, unit, athlete) && BestShown(db, unit, athlete)
    ensures BarsShown(next, unit, athlete)
    ensures BestShown(next, unit, athlete)
            <==> BestStands(HeightsOf(db, unit), HeightsOf(next, unit), StoredBars(db, unit, athlete))
  {
    if StoredBars(db, unit, athlete) == [] { assert V.HighestCleared([]) == -1; }
  }

  lemma SetHeightsExactly(meet: Meet, db: Db, s: Step)
    requires s.SetHeights? && AllShown(meet, db) && AllBest(meet, db)
    ensures var next := Apply(meet, db, s);
            AllShown(meet, next) && (AllBest(meet, next) <==> KeepsBests(meet, db, s))
  {
    var next := Apply(meet, db, s);
    HeightsStored(meet, db, s.unit, s.heights, s.expected);
    forall u: string, a: string | meet.IsUnit(u, VerticalJump) && !db.Announced(u)
      ensures BarsShown(next, u, a)
      ensures BestShown(next, u, a) <==> BestStands(HeightsOf(db, u), HeightsOf(next, u), StoredBars(db, u, a))
    {
      assert BarsShown(db, u, a) && BestShown(db, u, a);
      BestExactly(db, next, u, a);
    }
  }

  lemma SetHeightsShown(meet: Meet, db: Db, s: Step)
    requires s.SetHeights? && AllShown(meet, db)
    ensures AllShown(meet, Apply(meet, db, s))
  {
    HeightsStored(meet, db, s.unit, s.heights, s.expected);
    forall u: string, a: string | meet.IsUnit(u, VerticalJump) && !db.Announced(u)
      ensures BarsShown(Apply(meet, db, s), u, a)
    {
      assert BarsShown(db, u, a);
    }
  }

  // --- Every step, every run ---

  lemma BarKeeps(meet: Meet, db: Db, unit: string, input: R.BarInput)
    ensures var next := R.SaveVerticalTrial(meet, db, unit, input).0;
            (AllShown(meet, db) ==> AllShown(meet, next)) && (AllBest(meet, db) ==> AllBest(meet, next))
  {
    var (next, done) := R.SaveVerticalTrial(meet, db, unit, input);
    BarWrites(meet, db, unit, input);
    if done.Ok? {
      forall u: string, a: string | meet.IsUnit(u, VerticalJump) && !next.Announced(u)
        ensures !db.Announced(u)
        ensures BarsShown(db, u, a) ==> BarsShown(next, u, a)
        ensures BestShown(db, u, a) ==> BestShown(next, u, a)
      {
        BarSettles(meet, db, unit, input, u, a);
      }
    }
  }

  lemma StepKeepsShown(meet: Meet, db: Db, s: Step)
    requires meet.Valid() && ConflictsOnTrack(meet, db) && AllShown(meet, db)
    ensures AllShown(meet, Apply(meet, db, s))
  {
    if s.SetHeights? {
      SetHeightsShown(meet, db, s);
    } else if s.CaptureBar? {
      BarKeeps(meet, db, s.unit, s.bar);
    } else {
      StepSpares(meet, db, s);
      SparedAgrees(meet, db, Apply(meet, db, s));
    }
  }

  // From a state where results and trials agree, a step leads to another one exactly when it
  // keeps the best heights.
  lemma StepKeepsBestExactly(meet: Meet, db: Db, s: Step)
    requires meet.Valid() && ConflictsOnTrack(meet, db) && AllShown(meet, db) && AllBest(meet, db)
    ensures AllBest(meet, Apply(meet, db, s)) <==> KeepsBests(meet, db, s)
  {
    if s.SetHeights? {
      SetHeightsExactly(meet, db, s);
    } else if s.CaptureBar? {
      BarKeeps(meet, db, s.unit, s.bar);
    } else {
      StepSpares(meet, db, s);
      SparedAgrees(meet, db, Apply(meet, db, s));
    }
  }

  lemma {:induction false} NoBars(unit: string, athlete: string)
    ensures R.BarsOf(map[], unit, athlete) == []
  {
    assert R.HeightsTried(map[], unit, athlete) == {};
  }

  lemma EmptyShown(meet: Meet)
    ensures AllShown(meet, EMPTY_DB) && AllBest(meet, EMPTY_DB)
  {
    forall unit: string, athlete: string ensures BarsShown(EMPTY_DB, unit, athlete) && BestShown(EMPTY_DB, unit, athlete) {
      NoBars(unit, athlete);
    }
  }

  // In every reachable state an athlete of an unannounced vertical unit has a result exactly when a
  // bar trial is stored, with the status those trials give.
  lemma {:induction false} ReachableBars(meet: Meet, run: seq<Step>)
    requires meet.Valid()
    ensures AllShown(meet, Exec(meet, EMPTY_DB, run))
  {
    if run == [] {
      EmptyShown(meet);
    } else {
      var init := run[..|run| - 1];
      ReachableBars(meet, init);
      ReachableConflicts(meet, init);
      StepKeepsShown(meet, Exec(meet, EMPTY_DB, init), run[|run| - 1]);
    }
  }

  lemma ReachableConflicts(meet: Meet, run: seq<Step>)
    requires meet.Valid()
    ensures ConflictsOnTrack(meet, Exec(meet, EMPTY_DB, run))
  {
    EmptyInvariant(meet);
    RunKeepsInvariant(meet, EMPTY_DB, run);
  }

  // Step i of the run, in the state it is taken in.
  ghost predicate KeepsAt(meet: Meet, run: seq<Step>, i: nat)
    requires i < |run|
  {
    KeepsBests(meet, Exec(meet, EMPTY_DB, run[..i]), run[i])
  }

  ghost predicate BestAt(meet: Meet, run: seq<Step>, i: nat)
    requires i <= |run|
  {
    AllBest(meet, Exec(meet, EMPTY_DB, run[..i]))
  }

  lemma {:induction false} Stepwise(best: nat -> bool, keeps: nat -> bool, n: nat)
    requires best(0) && forall i: nat :: i < n && best(i) ==> (best(i + 1) <==> keeps(i))
    ensures (forall i: nat | i <= n :: best(i)) <==> (forall i: nat | i < n :: keeps(i))
  {
    if n > 0 {
      var m: nat := n - 1;
      Stepwise(best, keeps, m);
      assert best(m) ==> (best(m + 1) <==> keeps(m));
    }
  }

  lemma StepAt(meet: Meet, run: seq<Step>, i: nat)
    requires meet.Valid() && i < |run|
    ensures BestAt(meet, run, i) ==> (BestAt(meet, run, i + 1) <==> KeepsAt(meet, run, i))
  {
    var before := Exec(meet, EMPTY_DB, run[..i]);
    assert run[..i + 1][..i] == run[..i];
    ReachableBars(meet, run[..i]);
    ReachableConflicts(meet, run[..i]);
    if AllBest(meet, before) { StepKeepsBestExactly(meet, before, run[i]); }
  }

  // Throughout a run every result shows the best height cleared if and only if every change of a
  // progression in the run keeps the best heights.
  lemma ReachableBestExactly(meet: Meet, run: seq<Step>)
    requires meet.Valid()
    ensures (forall i: nat | i <= |run| :: BestAt(meet, run, i)) <==> (forall i: nat | i < |run| :: KeepsAt(meet, run, i))
  {
    ghost var best: nat -> bool := (i: nat) => i <= |run| && BestAt(meet, run, i);
    ghost var keeps: nat -> bool := (i: nat) => i < |run| && KeepsAt(meet, run, i);
    assert best(0) by {
      EmptyShown(meet);
      assert run[..0] == [];
    }
    forall i: nat | i < |run| && best(i) ensures best(i + 1) <==> keeps(i) { StepAt(meet, run, i); }
    Stepwise(best, keeps, |run|);
    assert forall i: nat | i <= |run| :: best(i) == BestAt(meet, run, i);
    assert forall i: nat | i < |run| :: keeps(i) == KeepsAt(meet, run, i);
  }

  // So it is where every later list was sent with the version it extends.
  lemma GuardedRun(meet: Meet, run: seq<Step>)
    requires meet.Valid()
    requires forall i: nat | i < |run| :: Guarded(Exec(meet, EMPTY_DB, run[..i]), run[i])
    ensures AllBest(meet, Exec(meet, EMPTY_DB, run))
  {
    forall i: nat | i < |run| ensures KeepsAt(meet, run, i) {
      GuardedKeeps(meet, Exec(meet, EMPTY_DB, run[..i]), run[i]);
    }
    ReachableBestExactly(meet, run);
    assert run[..|run|] == run && BestAt(meet, run, |run|);
  }

  // --- A list replaced ---

  const PIT: Meet := Meet(map["hj" := UnitInfo(VerticalJump, false, 0)], ["ann"], {}, map[], map[], NoPoints, true)

  const FIRST_BAR: BarCell := BarCell("hj", "ann", 0, 1)

  const CLEARED: R.BarInput := R.BarInput("ann", V.Trial(0, 1, Cleared), 0)

  // The state after the first height was set and cleared.
  const JUMPED: Db :=
    EMPTY_DB.(heights := map["hj" := HeightList(["1.60"], 1)], bars := map[FIRST_BAR := StoredBar(Cleared, 1)],
              results := map[("hj", "ann") := Settled("1.60", NoTiming, Unset, "", Operator, 1)])

  lemma OneBar()
    ensures R.BarsOf(JUMPED.bars, "hj", "ann") == [V.Trial(0, 1, Cleared)]
  {
    var bars := JUMPED.bars;
    assert FIRST_BAR in bars;
    assert R.HeightsTried(bars, "hj", "ann") == {0};
    assert 0 in R.HeightsTried(bars, "hj", "ann");
    assert R.HeightCount(bars, "hj", "ann") == 1;
    assert R.BarsAt(bars, "hj", "ann", 0, 1) == [V.Trial(0, 1, Cleared)];
    assert R.BarsAt(bars, "hj", "ann", 0, 2) == R.BarsAt(bars, "hj", "ann", 0, 1);
    assert R.BarsAt(bars, "hj", "ann", 0, 3) == R.BarsAt(bars, "hj", "ann", 0, 2);
    assert R.BarsUpTo(bars, "hj", "ann", 0) == [];
  }

  lemma OneClearance()
    ensures var trials := [V.Trial(0, 1, Cleared)];
            V.HighestCleared(trials) == 0 && V.SeriesStatus(trials) == Unset
            && R.SettleBars(PIT, "hj", "ann", ["1.60"], trials) == Ok(Settled("1.60", NoTiming, Unset, "", Operator, 0))
  {
    var trials := [V.Trial(0, 1, Cleared)];
    assert trials[..0] == [] && V.HighestCleared([]) == -1;
  }

  lemma JumpedIsReached()
    ensures var ready := EMPTY_DB.(heights := JUMPED.heights);
            && Apply(PIT, EMPTY_DB, SetHeights("hj", ["1.60"], 0)) == ready
            && R.SaveVerticalTrial(PIT, ready, "hj", CLEARED).0 == JUMPED
  {
    var ready := EMPTY_DB.(heights := JUMPED.heights);
    OneBar();
    OneClearance();
    assert ready.bars[FIRST_BAR := StoredBar(Cleared, 1)] == JUMPED.bars;
    assert Upsert(ready.results, "hj", "ann", Settled("1.60", NoTiming, Unset, "", Operator, 0)) == JUMPED.results;
  }

  lemma ThreeSteps(meet: Meet, a: Step, b: Step, c: Step)
    ensures Exec(meet, EMPTY_DB, [a, b, c]) == Apply(meet, Apply(meet, Apply(meet, EMPTY_DB, a), b), c)
  {
    assert [a, b, c][..2] == [a, b] && [a, b][..1] == [a] && [a][..0] == [];
    assert Exec(meet, EMPTY_DB, [a]) == Apply(meet, EMPTY_DB, a);
    assert Exec(meet, EMPTY_DB, [a, b]) == Apply(meet, Exec(meet, EMPTY_DB, [a]), b);
  }

  // What the second list leaves.
  const RAISED: Db := JUMPED.(heights := map["hj" := HeightList(["1.70"], 2)])

  // A first-time form sent a second time: the result says 1.60, and the only height there is, which
  // the athlete has cleared, is 1.70.
  lemma HeightsReplaced()
    ensures var run := [SetHeights("hj", ["1.60"], 0), CaptureBar("hj", CLEARED), SetHeights("hj", ["1.70"], 0)];
            Exec(PIT, EMPTY_DB, run) == RAISED && PIT.Valid() && !RAISED.Announced("hj")
    ensures HeightsOf(RAISED, "hj") == ["1.70"] && RAISED.results[("hj", "ann")].mark == "1.60"
    ensures !BestShown(RAISED, "hj", "ann")
  {
    RaisedFollows();
    RaisedDisagrees();
  }

  lemma RaisedFollows()
    ensures var run := [SetHeights("hj", ["1.60"], 0), CaptureBar("hj", CLEARED), SetHeights("hj", ["1.70"], 0)];
            Exec(PIT, EMPTY_DB, run) == RAISED
  {
    JumpedIsReached();
    ThreeSteps(PIT, SetHeights("hj", ["1.60"], 0), CaptureBar("hj", CLEARED), SetHeights("hj", ["1.70"], 0));
    RaisedNext();
  }

  lemma RaisedNext()
    ensures Apply(PIT, JUMPED, SetHeights("hj", ["1.70"], 0)) == RAISED
  {}

  lemma RaisedDisagrees()
    ensures HeightsOf(RAISED, "hj") == ["1.70"] && RAISED.results[("hj", "ann")].mark == "1.60"
    ensures !BestShown(RAISED, "hj", "ann")
  {
    OneBar();
    OneClearance();
    assert StoredBars(RAISED, "hj", "ann") == [V.Trial(0, 1, Cleared)];
    assert "1.70"[2] != "1.60"[2];
  }
}
