// Settled results outside field capture: track and vertical capture, bulk DNS, announcement
// and its protest clock, corrections, and the timing-file import with its conflict queue.
module Results {
  import opened Basics
  import opened Text
  import opened Marks
  import opened Vocabulary
  import opened Tables
  import C = Capture
  import V = Vertical

  datatype ResultError =
    | UnknownUnit | WrongFamily | NotRegistered | Announced | BadStatus | BadMark | TimingRequired
    | Conflicting | Missing | NoHeights | NotExtended | HeightGone | ReasonRequired | EscalationRequired
    | NoSuchConflict | UnitUnresolved | ReassignRequired | StatusRequired | NotOpen | NotStored | Unrated

  type Done = Result<(), ResultError>

  // --- The protest clock ---

  // Thirty minutes, in seconds.
  const PROTEST_WINDOW: int := 1800

  datatype ProtestState = ProtestState(announced: bool, official: bool, remaining: int)

  function ComputeProtestState(db: Db, unit: string, now: int): ProtestState {
    if !db.Announced(unit) then ProtestState(false, false, 0) else
    var elapsed := now - db.LatestAnnouncement(unit);
    if elapsed >= PROTEST_WINDOW then ProtestState(true, true, 0)
    else ProtestState(true, false, PROTEST_WINDOW - elapsed)
  }

  function Announce(db: Db, unit: string, now: int): Db {
    var before := if unit in db.announcements then db.announcements[unit] else [];
    db.(announcements := db.announcements[unit := before + [now]])
  }

  function AnnounceUnitResults(meet: Meet, db: Db, unit: string, now: int): (Db, Done) {
    if unit !in meet.units then (db, Err(UnknownUnit)) else (Announce(db, unit, now), Ok(()))
  }

  // --- Track capture ---

  datatype TrackInput = TrackInput(athlete: string, time: string, timing: Timing, status: Status,
                                   detail: string, expected: Option<int>)

  // A time as it is stored for its timing method.
  function TimedMark(time: string, timing: Timing): Result<string, ResultError> {
    match timing
    case NoTiming => Err(TimingRequired)
    case Manual => var t := RoundUpHandTime(time); if t.Ok? then Ok(t.value) else Err(BadMark)
    case Electronic => var t := ValidateFATTime(time); if t.Ok? then Ok(t.value) else Err(BadMark)
  }

  // Insert-only for 0, guarded by the version for a positive expectation.
  function SaveOptimistic(db: Db, unit: string, athlete: string, r: Settled, expected: int): (Db, Done) {
    var key := (unit, athlete);
    if expected > 0 && key !in db.results then (db, Err(Missing))
    else if expected > 0 && db.results[key].version != expected then (db, Err(Conflicting))
    else if expected <= 0 && key in db.results then (db, Err(Conflicting))
    else (db.(results := C.Upsert(db.results, unit, athlete, r)), Ok(()))
  }

  // The row a track capture leaves, or why it is refused.
  function CapturedRow(meet: Meet, unit: string, input: TrackInput): Result<Settled, ResultError> {
    if input.status != Unset then
      if !ValidCaptureStatus(input.status, input.detail) then Err(BadStatus)
      else Ok(Settled("", NoTiming, input.status, input.detail, Operator, 0))
    else
      var mark := TimedMark(input.time, input.timing);
      if mark.Err? then Err(mark.error)
      else if !meet.Rates(unit, input.athlete, input.timing, mark.value) then Err(Unrated)
      else Ok(Settled(mark.value, input.timing, Unset, input.detail, Operator, 0))
  }

  function SaveTrackResult(meet: Meet, db: Db, unit: string, input: TrackInput): (Db, Done) {
    if unit !in meet.units then (db, Err(UnknownUnit))
    else if meet.units[unit].family != Track then (db, Err(WrongFamily))
    else if input.athlete !in meet.roster then (db, Err(NotRegistered))
    else if db.Announced(unit) then (db, Err(Announced))
    else
      var row := CapturedRow(meet, unit, input);
      if row.Err? then (db, Err(row.error))
      else if input.expected.Some? then SaveOptimistic(db, unit, input.athlete, row.value, input.expected.value)
      else (db.(results := C.Upsert(db.results, unit, input.athlete, row.value)), Ok(()))
  }

  // --- Bulk DNS: every entrant of a track unit without a result ---

  const DNS_ROW := Settled("", NoTiming, DNS, "", Operator, 0)

  function MarkDNS(db: Db, unit: string, athletes: seq<string>): (Db, nat) {
    if athletes == [] then (db, 0) else
    var (earlier, n) := MarkDNS(db, unit, athletes[..|athletes| - 1]);
    var (next, done) := SaveOptimistic(earlier, unit, athletes[|athletes| - 1], DNS_ROW, 0);
    (next, if done.Ok? then n + 1 else n)
  }

  function Unresulted(db: Db, unit: string, roster: seq<string>): seq<string> {
    if roster == [] then [] else
    var last := roster[|roster| - 1];
    Unresulted(db, unit, roster[..|roster| - 1]) + if (unit, last) in db.results then [] else [last]
  }

  function BulkMarkRemainingDNS(meet: Meet, db: Db, unit: string): (Db, Result<nat, ResultError>) {
    if unit !in meet.units then (db, Err(UnknownUnit))
    else if meet.units[unit].family != Track then (db, Err(WrongFamily))
    else if db.Announced(unit) then (db, Err(Announced))
    else
      var (next, n) := MarkDNS(db, unit, Unresulted(db, unit, meet.roster));
      (next, Ok(n))
  }

  // The server stops after n entries: each is a transaction of its own.
  function BulkCut(meet: Meet, db: Db, unit: string, n: nat): Db {
    var open := Unresulted(db, unit, meet.roster);
    if !meet.IsUnit(unit, Track) || db.Announced(unit) then db
    else MarkDNS(db, unit, if n < |open| then open[..n] else open).0
  }

  // --- Vertical capture ---

  datatype BarInput = BarInput(athlete: string, trial: V.Trial, expected: int)

  function HeightsTried(bars: map<BarCell, StoredBar>, unit: string, athlete: string): set<int> {
    set cell <- bars | cell.unit == unit && cell.athlete == athlete :: cell.height
  }

  // One more than the highest height tried.
  function HeightCount(bars: map<BarCell, StoredBar>, unit: string, athlete: string): (n: nat)
    ensures forall h <- HeightsTried(bars, unit, athlete) :: h < n
  {
    var tried := HeightsTried(bars, unit, athlete);
    if exists h :: h in tried then
      var top := Top(tried);
      if top < 0 then 0 else top + 1
    else 0
  }

  // Every stored trial of one athlete, height by height, whatever the progression is by now.
  function BarsOf(bars: map<BarCell, StoredBar>, unit: string, athlete: string): seq<V.Trial> {
    BarsUpTo(bars, unit, athlete, HeightCount(bars, unit, athlete))
  }

  // Those among the first n heights.
  function BarsUpTo(bars: map<BarCell, StoredBar>, unit: string, athlete: string, n: nat): seq<V.Trial> {
    if n == 0 then [] else
    BarsUpTo(bars, unit, athlete, n - 1) + BarsAt(bars, unit, athlete, n - 1, 3)
  }

  function BarsAt(bars: map<BarCell, StoredBar>, unit: string, athlete: string, height: nat, n: nat): seq<V.Trial> {
    if n == 0 then [] else
    var cell := BarCell(unit, athlete, height, n);
    BarsAt(bars, unit, athlete, height, n - 1)
    + if cell in bars then [V.Trial(height, n, bars[cell].kind)] else []
  }

  // Configuring a unit's bar progression: a first list, or a later one that extends the list
  // whose version was expected. Without an expected version whatever list there is is replaced.
  function SetHeights(meet: Meet, db: Db, unit: string, heights: seq<string>, expected: int): (Db, Done) {
    if unit !in meet.units then (db, Err(UnknownUnit))
    else if meet.units[unit].family != VerticalJump then (db, Err(WrongFamily))
    else if heights == [] then (db, Err(NoHeights))
    else if expected > 0 && unit !in db.heights then (db, Err(Missing))
    else if expected > 0 && !(db.heights[unit].heights <= heights) then (db, Err(NotExtended))
    else if expected > 0 && db.heights[unit].version != expected then (db, Err(Conflicting))
    else
      var version := if unit in db.heights then db.heights[unit].version + 1 else 1;
      (db.(heights := db.heights[unit := HeightList(heights, version)]), Ok(()))
  }

  // What the trials settle as. A best height the progression no longer has stops the request,
  // and so does one that cannot be scored.
  function SettleBars(meet: Meet, unit: string, athlete: string, heights: seq<string>, trials: seq<V.Trial>)
    : Result<Settled, ResultError>
  {
    var best := V.HighestCleared(trials);
    if best >= |heights| then Err(HeightGone)
    else if best >= 0 && !meet.Scores(unit, athlete, NoTiming, heights[best]) then Err(Unrated)
    else Ok(SettledBars(heights, trials))
  }

  function SettledBars(heights: seq<string>, trials: seq<V.Trial>): Settled {
    var best := V.HighestCleared(trials);
    Settled(if 0 <= best < |heights| then heights[best] else "", NoTiming, V.SeriesStatus(trials), "", Operator, 0)
  }

  function SaveVerticalTrial(meet: Meet, db: Db, unit: string, input: BarInput): (Db, Done) {
    if db.Announced(unit) then (db, Err(Announced))
    else if unit !in meet.units then (db, Err(UnknownUnit))
    else if meet.units[unit].family != VerticalJump then (db, Err(WrongFamily))
    else if input.athlete !in meet.roster then (db, Err(NotRegistered))
    else if unit !in db.heights then (db, Err(NoHeights))
    else
      var heights, t := db.heights[unit].heights, input.trial;
      if !(0 <= t.height < |heights|) || !V.ValidTrial(t) then (db, Err(BadMark))
      else SaveBar(meet, db, unit, input, heights)
  }

  // The transaction: the trial is saved and the series settled, or neither.
  function SaveBar(meet: Meet, db: Db, unit: string, input: BarInput, heights: seq<string>): (Db, Done) {
    var cell := BarCell(unit, input.athlete, input.trial.height, input.trial.number);
    if input.expected > 0 && cell !in db.bars then (db, Err(Missing))
    else if input.expected > 0 && db.bars[cell].version != input.expected then (db, Err(Conflicting))
    else if input.expected <= 0 && cell in db.bars then (db, Err(Conflicting))
    else
      var version := if input.expected > 0 then input.expected + 1 else 1;
      var bars := db.bars[cell := StoredBar(input.trial.kind, version)];
      var settled := SettleBars(meet, unit, input.athlete, heights, BarsOf(bars, unit, input.athlete));
      if settled.Err? then (db, Err(settled.error))
      else (db.(bars := bars, results := C.Upsert(db.results, unit, input.athlete, settled.value)), Ok(()))
  }

  // --- Corrections ---

  datatype Correction = Correction(mark: string, timing: Timing, status: Status, detail: string,
                                   reason: string, escalation: string)

  // The row a correction leaves, or why it is refused.
  function CorrectedRow(family: Family, c: Correction): Result<Settled, ResultError> {
    if c.status != Unset then
      if !ValidCaptureStatus(c.status, c.detail) then Err(BadStatus)
      else Ok(Settled("", NoTiming, c.status, c.detail, Operator, 0))
    else if family == Track then
      var mark := TimedMark(c.mark, c.timing);
      if mark.Err? then Err(mark.error) else Ok(Settled(mark.value, c.timing, Unset, c.detail, Operator, 0))
    else
      var centi := CentiMark(c.mark);
      if centi.Err? || centi.value == 0 then Err(BadMark)
      else Ok(Settled(FormatCentiMark(centi.value), NoTiming, Unset, c.detail, Operator, 0))
  }

  // Amends a settled result and posts the amended list again, in one transaction.
  function CorrectResult(meet: Meet, db: Db, unit: string, athlete: string, c: Correction, now: int): (Db, Done) {
    if TrimSpace(c.reason) == "" then (db, Err(ReasonRequired))
    else if unit !in meet.units then (db, Err(UnknownUnit))
    else if meet.units[unit].family == OtherFamily then (db, Err(WrongFamily))
    else if athlete !in meet.roster then (db, Err(NotRegistered))
    else if ComputeProtestState(db, unit, now).official && TrimSpace(c.escalation) == "" then
      (db, Err(EscalationRequired))
    else
      var row := CorrectedRow(meet.units[unit].family, c);
      if row.Err? then (db, Err(row.error))
      else if row.value.status == Unset && !meet.Rates(unit, athlete, row.value.timing, row.value.mark) then (db, Err(Unrated))
      else (Announce(db.(results := C.Upsert(db.results, unit, athlete, row.value)), unit, now), Ok(()))
  }

  // --- Timing files ---

  predicate Blank(r: Settled) {
    r.mark == "" && r.status == Unset
  }

  // Why a row that found its unit and athlete must not be written straight away.
  function TimingWriteConflict(db: Db, unit: string, athlete: string): Option<ConflictReason> {
    if db.Announced(unit) then Some(UnitAnnounced)
    else if (unit, athlete) in db.results && db.results[(unit, athlete)].source == Operator
            && !Blank(db.results[(unit, athlete)]) then Some(ExistingManualResult)
    else None
  }

  function ApplyTimingRow(meet: Meet, db: Db, unit: string, athlete: string, row: TimingRow, source: Source)
    : (Db, Done)
  {
    if unit !in meet.units then (db, Err(UnknownUnit)) else
    var mark := if row.mark != "" then TimedMark(row.mark, row.timing) else Ok("");
    if mark.Err? then (db, Err(mark.error))
    else if row.mark != "" && row.status == Unset && athlete !in meet.roster then (db, Err(NotRegistered))
    else if row.mark != "" && row.status == Unset && !meet.Scores(unit, athlete, row.timing, mark.value) then
      (db, Err(Unrated))
    else if !meet.Stored(athlete) then (db, Err(NotStored))
    else
      var r := Settled(mark.value, if row.mark != "" then row.timing else NoTiming, row.status, row.detail, source, 0);
      (db.(results := C.Upsert(db.results, unit, athlete, r)), Ok(()))
  }

  function Queue(db: Db, unit: Option<string>, athlete: Option<string>, reason: ConflictReason, row: TimingRow,
                 source: Source): Db
  {
    db.(conflicts := db.conflicts + [Conflict(unit, athlete, reason, row, source, Open)])
  }

  datatype Summary = Summary(written: nat, queued: nat)

  datatype RowOutcome = Skipped | Written | Queued

  // Where a row's numbers and bib lead: the place to write, or the reason to queue it.
  datatype Target = Target(unit: Option<string>, athlete: Option<string>, reason: Option<ConflictReason>)

  function Resolved(meet: Meet, db: Db, row: TimingRow): Target {
    var numbers := (row.event, row.round, row.heat);
    if numbers !in meet.numbers then Target(None, None, Some(UnresolvedUnit)) else
    var unit := meet.numbers[numbers];
    if row.bib !in meet.bibs || meet.bibs[row.bib] == "" then Target(Some(unit), None, Some(UnknownBib)) else
    var athlete := meet.bibs[row.bib];
    Target(Some(unit), Some(athlete),
           if row.unmapped then Some(UnmappedStatus) else TimingWriteConflict(db, unit, athlete))
  }

  function ImportRow(meet: Meet, db: Db, row: TimingRow, source: Source): (Db, Result<RowOutcome, ResultError>) {
    if row.blank then (db, Ok(Skipped)) else
    var t := Resolved(meet, db, row);
    if t.reason.Some? || t.unit.None? || t.athlete.None? then
      (Queue(db, t.unit, t.athlete, if t.reason.Some? then t.reason.value else UnknownBib, row, source), Ok(Queued))
    else
      var (next, done) := ApplyTimingRow(meet, db, t.unit.value, t.athlete.value, row, source);
      (next, if done.Ok? then Ok(Written) else Err(done.error))
  }

  // Rows are taken in file order; the first row that cannot be written ends the import.
  function ImportRows(meet: Meet, db: Db, rows: seq<TimingRow>, source: Source): (Db, Result<Summary, ResultError>) {
    if rows == [] then (db, Ok(Summary(0, 0))) else
    var (before, counts) := ImportRows(meet, db, rows[..|rows| - 1], source);
    if counts.Err? then (before, counts) else
    var (next, outcome) := ImportRow(meet, before, rows[|rows| - 1], source);
    if outcome.Err? then (next, Err(outcome.error)) else
    (next, Ok(Tally(counts.value, outcome.value)))
  }

  function Tally(s: Summary, outcome: RowOutcome): Summary {
    match outcome
    case Skipped => s
    case Written => s.(written := s.written + 1)
    case Queued => s.(queued := s.queued + 1)
  }

  // --- Deciding a queued row ---

  datatype Action = Keep | Discard | Replace | Merge

  datatype Choice = Choice(action: Action, reassign: string, status: Status, detail: string,
                           reason: string, escalation: string)

  // Existing non-blank fields win; a mark travels with its timing, a status with its detail.
  function MergeTimingRow(existing: Option<Settled>, row: TimingRow): TimingRow {
    if existing.None? then row else
    var e := existing.value;
    var kept := if e.mark != "" then row.(mark := e.mark, timing := e.timing) else row;
    if e.status != Unset then kept.(status := e.status, detail := e.detail) else kept
  }

  function Lookup(db: Db, unit: string, athlete: string): Option<Settled> {
    if (unit, athlete) in db.results then Some(db.results[(unit, athlete)]) else None
  }

  function SetConflict(db: Db, index: nat, status: ConflictStatus): (Db, Done)
    requires index < |db.conflicts|
  {
    var c := db.conflicts[index];
    if !c.status.Open? then (db, Err(NotOpen))
    else (db.(conflicts := db.conflicts[index := c.(status := status)]), Ok(()))
  }

  function ChosenAthlete(c: Conflict, choice: Choice): string {
    if c.athlete.Some? then c.athlete.value else choice.reassign
  }

  // The row to write: its status decided by the operator where the file's had no equivalent,
  // its blanks filled around the existing result when merging.
  function ChosenRow(db: Db, c: Conflict, choice: Choice): TimingRow {
    var imported := if c.reason.UnmappedStatus? then c.row.(status := choice.status, detail := choice.detail) else c.row;
    if choice.action.Merge? && c.unit.Some?
    then MergeTimingRow(Lookup(db, c.unit.value, ChosenAthlete(c, choice)), imported)
    else imported
  }

  function CorrectionFrom(row: TimingRow, choice: Choice): Correction {
    Correction(row.mark, row.timing, row.status, row.detail, choice.reason, choice.escalation)
  }

  // The write a replace or merge makes, before the queue row's own status is touched.
  function WriteChoice(meet: Meet, db: Db, c: Conflict, choice: Choice, now: int): (Db, Done) {
    if c.unit.None? then (db, Err(UnitUnresolved)) else
    var unit, athlete := c.unit.value, ChosenAthlete(c, choice);
    if athlete == "" then (db, Err(ReassignRequired))
    else if c.reason.UnmappedStatus? && choice.status == Unset then (db, Err(StatusRequired))
    else
      var row := ChosenRow(db, c, choice);
      if !db.Announced(unit) then ApplyTimingRow(meet, db, unit, athlete, row, c.source)
      else if TrimSpace(choice.reason) == "" then (db, Err(ReasonRequired))
      else CorrectResult(meet, db, unit, athlete, CorrectionFrom(row, choice), now)
  }

  // The server stops after the write, before the queue row is closed.
  function ResolveTimingCut(meet: Meet, db: Db, index: nat, choice: Choice, now: int): Db {
    if index < |db.conflicts| && (choice.action.Replace? || choice.action.Merge?)
    then WriteChoice(meet, db, db.conflicts[index], choice, now).0
    else db
  }

  function ResolveTimingConflict(meet: Meet, db: Db, index: nat, choice: Choice, now: int): (Db, Done) {
    if index >= |db.conflicts| then (db, Err(NoSuchConflict))
    else if choice.action.Keep? then SetConflict(db, index, Kept)
    else if choice.action.Discard? then SetConflict(db, index, Discarded)
    else
      var (saved, done) := WriteChoice(meet, db, db.conflicts[index], choice, now);
      if done.Err? || index >= |saved.conflicts| then (saved, done)
      else SetConflict(saved, index, if choice.action.Merge? then Merged else Replaced)
  }
}
