// The store: one value per table the capture protocol reads or writes, and the rows in them.
// A committed transaction is one change of a Db value.
module Tables {
  import opened Basics
  import opened Marks
  import opened Vocabulary
  import opened FieldSeries

  // --- What does not change while a meet is captured ---

  datatype Family = Track | Horizontal | VerticalJump | OtherFamily

  // trials bounds a horizontal series.
  datatype UnitInfo = UnitInfo(family: Family, windRelevant: bool, trials: int)

  datatype Timing = NoTiming | Manual | Electronic

  // The table marks are scored by, if the meet has one: it has a column for the discipline of
  // these units, with this timing, and the sex of these athletes.
  datatype PointsTable = NoPoints | PointsTable(columns: set<(string, string, Timing)>)

  // others are stored athletes who are not registered here; numbers are the event/round/heat
  // triples timing files carry, assigned to track units only; categories says whether the
  // server knows the meet's category scheme, without which no mark can be held against records.
  datatype Meet = Meet(units: map<string, UnitInfo>, roster: seq<string>, others: set<string>,
                       numbers: map<(int, int, int), string>, bibs: map<string, string>,
                       points: PointsTable, categories: bool)
  {
    predicate IsUnit(unit: string, family: Family) {
      unit in units && units[unit].family == family
    }

    // Results refer to stored athletes only; everyone on the roster is one.
    predicate Stored(athlete: string) { athlete in roster || athlete in others }

    // There are points to be had for the athlete's marks on this unit, or none are given.
    predicate HasColumn(unit: string, athlete: string, timing: Timing) {
      points.NoPoints? || (unit, athlete, timing) in points.columns
    }

    // The points lookup succeeds.
    predicate Scores(unit: string, athlete: string, timing: Timing, mark: string) {
      points.NoPoints? || ((unit, athlete, timing) in points.columns && CentiMark(mark).Ok?)
    }

    // So does the comparison with records.
    predicate Rates(unit: string, athlete: string, timing: Timing, mark: string) {
      categories && Scores(unit, athlete, timing, mark)
    }

    ghost predicate Valid() {
      forall n <- numbers :: IsUnit(numbers[n], Track)
    }
  }

  // --- Rows ---

  datatype Checkout = Checkout(account: string, device: string, token: nat, generation: int,
                               startList: int, active: bool, version: int)

  datatype ReconcileReason = StaleCheckout | StartListChange | Diverged

  datatype RejectReason = InvalidMark | UnknownAthlete | AlreadyAnnounced

  datatype Decision = Applied | Reconciled(why: ReconcileReason) | Rejected(reason: RejectReason)

  datatype OpRecord = OpRecord(unit: string, decision: Decision)

  // A trial's identity, and what is stored for it.
  datatype Cell = Cell(unit: string, athlete: string, trial: int)

  datatype StoredTrial = StoredTrial(kind: AttemptKind, mark: string, wind: Option<Wind>, version: int)

  datatype BarCell = BarCell(unit: string, athlete: string, height: int, number: int)

  datatype StoredBar = StoredBar(kind: Status, version: int)

  // A vertical unit's bar progression.
  datatype HeightList = HeightList(heights: seq<string>, version: int)

  datatype Source = Operator | ImportLif | ImportCsv

  datatype Settled = Settled(mark: string, timing: Timing, status: Status, detail: string,
                             source: Source, version: int)

  datatype Payload = Payload(athlete: string, trial: int, kind: AttemptKind, mark: string, wind: Option<Wind>)

  datatype ItemStatus = Pending | ItemApplied | ItemDiscarded

  datatype Item = Item(op: string, unit: string, why: ReconcileReason, payload: Payload, capturedBy: string,
                       device: string, generation: int, startList: int, status: ItemStatus, resolvedBy: string)

  datatype ConflictReason =
    | UnresolvedUnit | UnknownBib | UnmappedStatus | UnitAnnounced | ExistingManualResult

  datatype ConflictStatus = Open | Kept | Replaced | Merged | Discarded

  // One row of a timing file.
  datatype TimingRow = TimingRow(event: int, round: int, heat: int, bib: string, mark: string, timing: Timing,
                                 status: Status, detail: string, unmapped: bool, blank: bool)

  datatype Conflict = Conflict(unit: Option<string>, athlete: Option<string>, reason: ConflictReason,
                               row: TimingRow, source: Source, status: ConflictStatus)

  // --- The tables ---

  // Queue rows are only ever appended, so a row's position stands for its fresh identifier;
  // tokens below nextToken have been issued.
  datatype Db = Db(
    checkouts: map<string, Checkout>,
    ops: map<string, OpRecord>,
    trials: map<Cell, StoredTrial>,
    bars: map<BarCell, StoredBar>,
    heights: map<string, HeightList>,
    results: map<(string, string), Settled>,
    items: seq<Item>,
    conflicts: seq<Conflict>,
    announcements: map<string, seq<int>>,
    nextToken: nat)
  {
    predicate Announced(unit: string) {
      unit in announcements && announcements[unit] != []
    }

    function LatestAnnouncement(unit: string): int
      requires Announced(unit)
    {
      announcements[unit][|announcements[unit]| - 1]
    }
  }

  const EMPTY_DB := Db(map[], map[], map[], map[], map[], map[], [], [], map[], 0)
}
