// The omx/v1 full-meet document: what validation accepts, how an import rebuilds the meet
// under fresh identifiers, and what an export of it gives back (internal/exchange/omx.go,
// internal/app/omx.go, and the store functions it writes with). The fields both directions
// copy unchanged are one value, rest.
module Omx {
  import opened Basics
  import opened Sorting

  // --- Moments ---

  // A written moment: its calendar day, and what the day leaves out, the time of day and the
  // offset from UTC, both in nanoseconds.
  datatype Moment = Moment(year: int, day: nat, clock: int, zone: int)

  const NANOS_PER_DAY: int := 86_400_000_000_000

  // The days before 1 January of a year of the Gregorian calendar.
  function DaysBefore(year: int): int {
    var y := year - 1;
    365 * y + y / 4 - y / 100 + y / 400
  }

  function Instant(t: Moment): int { (DaysBefore(t.year) + t.day) * NANOS_PER_DAY + t.clock - t.zone }

  // Go's zero time is midnight UTC of 1 January of year 1.
  predicate IsZero(t: Moment) { Instant(t) == 0 }

  // What a date column keeps.
  function DayOnly(t: Moment): Moment { t.(clock := 0, zone := 0) }

  predicate WholeDay(t: Moment) { t.clock == 0 && t.zone == 0 }

  // --- Entities ---

  datatype Header = Header(name: string, start: Moment, end: Moment, status: string, positioning: string,
                           externals: map<string, string>, rest: string)

  // I is string inside a document and a fresh number in the store.
  datatype Session<I> = Session(id: I, day: Moment, name: string)
  datatype Club<I> = Club(id: I, name: string, rest: string)
  datatype Athlete<I> = Athlete(id: I, clubs: seq<I>, lastName: string, sex: string, birth: Option<Moment>,
                                year: int, para: seq<string>, rest: string)
  datatype Team<I> = Team(id: I, club: I, legs: seq<I>, reserves: seq<I>)
  datatype Event<I> = Event(id: I, discipline: string, categories: seq<string>, status: string, rest: string)
  datatype Round<I> = Round(id: I, event: I, kind: string, order: int)
  // Schedule and announcement are instants, 0 the zero time.
  datatype Unit<I> = Unit(id: I, round: I, scheduled: Option<int>, announced: Option<int>, posting: int, rest: string)
  datatype Entry<I> = Entry(id: I, event: I, athlete: Option<I>, team: Option<I>, status: string, source: string,
                            rest: string)
  datatype Assignment<I> = Assignment(id: I, unit: I, entry: I, lane: int, code: string, rest: string)
  datatype Outcome<I> = Outcome(id: I, unit: I, athlete: I, source: string, rest: string)

  datatype Document<I> = Document(
    version: string, meet: I, header: Header, sessions: seq<Session<I>>, clubs: seq<Club<I>>,
    athletes: seq<Athlete<I>>, teams: seq<Team<I>>, events: seq<Event<I>>, rounds: seq<Round<I>>,
    units: seq<Unit<I>>, entries: seq<Entry<I>>, assignments: seq<Assignment<I>>, results: seq<Outcome<I>>)

  datatype Faulty = Faulty(what: string)

  datatype ImportError = Invalid | UnknownReference | Refused

  const OMX_V1 := "omx/v1"

  // --- Identifiers ---

  function SessionId(): Session<string> -> string { (x: Session<string>) => x.id }
  function ClubId(): Club<string> -> string { (x: Club<string>) => x.id }
  function AthleteId(): Athlete<string> -> string { (x: Athlete<string>) => x.id }
  function TeamId(): Team<string> -> string { (x: Team<string>) => x.id }
  function EventId(): Event<string> -> string { (x: Event<string>) => x.id }
  function RoundId(): Round<string> -> string { (x: Round<string>) => x.id }
  function UnitId(): Unit<string> -> string { (x: Unit<string>) => x.id }
  function EntryId(): Entry<string> -> string { (x: Entry<string>) => x.id }
  function AssignmentId(): Assignment<string> -> string { (x: Assignment<string>) => x.id }
  function OutcomeId(): Outcome<string> -> string { (x: Outcome<string>) => x.id }

  function IdSet<T>(idOf: T -> string, items: seq<T>): (r: set<string>)
    ensures forall i :: 0 <= i < |items| ==> idOf(items[i]) in r
    ensures forall id <- r :: exists i :: 0 <= i < |items| && idOf(items[i]) == id
  {
    if items == [] then {} else IdSet(idOf, items[..|items| - 1]) + {idOf(items[|items| - 1])}
  }

  // --- Validation ---

  datatype Known = Known(clubs: set<string>, athletes: set<string>, teams: set<string>, events: set<string>,
                         rounds: set<string>, units: set<string>, entries: set<string>)

  function KnownIn(doc: Document<string>): Known {
    Known(IdSet(ClubId(), doc.clubs), IdSet(AthleteId(), doc.athletes), IdSet(TeamId(), doc.teams),
          IdSet(EventId(), doc.events), IdSet(RoundId(), doc.rounds), IdSet(UnitId(), doc.units),
          IdSet(EntryId(), doc.entries))
  }

  function ClubOk(): Club<string> -> bool { (c: Club<string>) => c.id != "" && c.name != "" }

  function AthleteOk(): Athlete<string> -> bool {
    (a: Athlete<string>) => a.id != "" && a.lastName != "" && (a.sex == "M" || a.sex == "W")
  }

  function TeamOk(clubs: set<string>): Team<string> -> bool {
    (t: Team<string>) => t.id != "" && t.club != "" && t.legs != [] && t.club in clubs
  }

  function EventOk(): Event<string> -> bool {
    (e: Event<string>) => e.id != "" && e.discipline != "" && e.categories != []
  }

  function RoundOk(events: set<string>): Round<string> -> bool {
    (r: Round<string>) => r.id != "" && r.event in events
  }

  function UnitOk(rounds: set<string>): Unit<string> -> bool {
    (u: Unit<string>) => u.id != "" && u.round in rounds
  }

  function EntryOk(events: set<string>, athletes: set<string>, teams: set<string>): Entry<string> -> bool {
    (e: Entry<string>) =>
      && e.id != "" && e.event in events && (e.athlete.Some? <==> e.team.None?)
      && (e.athlete.Some? ==> e.athlete.value in athletes) && (e.team.Some? ==> e.team.value in teams)
  }

  function AssignmentOk(units: set<string>, entries: set<string>): Assignment<string> -> bool {
    (a: Assignment<string>) => a.unit in units && a.entry in entries
  }

  function OutcomeOk(units: set<string>, athletes: set<string>): Outcome<string> -> bool {
    (r: Outcome<string>) => r.id != "" && r.unit in units && r.athlete in athletes
  }

  ghost predicate All<T>(ok: T -> bool, items: seq<T>) { forall i :: 0 <= i < |items| ==> ok(items[i]) }

  // Identities present and every reference of rounds, units, entries, assignments and results
  // resolved within the document. Clubs of athletes and legs of teams are not looked at.
  ghost predicate Valid(doc: Document<string>) {
    var k := KnownIn(doc);
    && doc.version == OMX_V1 && doc.meet != "" && doc.header.name != ""
    && All(ClubOk(), doc.clubs) && All(AthleteOk(), doc.athletes) && All(TeamOk(k.clubs), doc.teams)
    && All(EventOk(), doc.events) && All(RoundOk(k.events), doc.rounds) && All(UnitOk(k.rounds), doc.units)
    && All(EntryOk(k.events, k.athletes, k.teams), doc.entries)
    && All(AssignmentOk(k.units, k.entries), doc.assignments) && All(OutcomeOk(k.units, k.athletes), doc.results)
  }

  // One pass over one kind of entity: checks each and remembers its identifier.
  method CheckAll<T>(ok: T -> bool, idOf: T -> string, items: seq<T>) returns (r: Result<set<string>, Faulty>)
    ensures r.Ok? <==> All(ok, items)
    ensures r.Ok? ==> r.value == IdSet(idOf, items)
  {
    var ids: set<string> := {};
    for i := 0 to |items|
      invariant All(ok, items[..i]) && ids == IdSet(idOf, items[..i])
    {
      if !ok(items[i]) {
        return Err(Faulty(idOf(items[i])));
      }
      assert items[..i + 1][..i] == items[..i];
      ids := ids + {idOf(items[i])};
    }
    assert items[..|items|] == items;
    return Ok(ids);
  }

  method ValidateOMX(doc: Document<string>) returns (r: Result<(), Faulty>)
    ensures r.Ok? <==> Valid(doc)
  {
    if doc.version != OMX_V1 || doc.meet == "" || doc.header.name == "" {
      return Err(Faulty(doc.meet));
    }
    var clubs :- CheckAll(ClubOk(), ClubId(), doc.clubs);
    var athletes :- CheckAll(AthleteOk(), AthleteId(), doc.athletes);
    var teams :- CheckAll(TeamOk(clubs), TeamId(), doc.teams);
    var events :- CheckAll(EventOk(), EventId(), doc.events);
    var rounds :- CheckAll(RoundOk(events), RoundId(), doc.rounds);
    var units :- CheckAll(UnitOk(rounds), UnitId(), doc.units);
    var entries :- CheckAll(EntryOk(events, athletes, teams), EntryId(), doc.entries);
    var _ :- CheckAll(AssignmentOk(units, entries), AssignmentId(), doc.assignments);
    var _ :- CheckAll(OutcomeOk(units, athletes), OutcomeId(), doc.results);
    return Ok(());
  }

  // --- Rounds in progression order ---

  function OfEvent(key: string): Round<string> -> bool { (r: Round<string>) => r.event == key }

  function Earlier(): (Round<string>, Round<string>) -> bool {
    (a: Round<string>, b: Round<string>) => a.order < b.order
  }

  function EventKeys(rounds: seq<Round<string>>): seq<string> {
    if rounds == [] then [] else
    var before, key := EventKeys(rounds[..|rounds| - 1]), rounds[|rounds| - 1].event;
    if key in before then before else before + [key]
  }

  function NumberedFrom(rounds: seq<Round<string>>, n: nat): (r: seq<Round<string>>)
    ensures |r| == |rounds| && forall i :: 0 <= i < |r| ==> r[i] == rounds[i].(order := n + i)
  {
    if rounds == [] then [] else [rounds[0].(order := n)] + NumberedFrom(rounds[1..], n + 1)
  }

  // The rounds of one event, sorted by their sequence number and numbered anew from 0.
  function RoundsOf(rounds: seq<Round<string>>, key: string): seq<Round<string>> {
    NumberedFrom(StableSort(Filter(OfEvent(key), rounds), Earlier()), 0)
  }

  function RoundsByKey(rounds: seq<Round<string>>, keys: seq<string>): seq<Round<string>> {
    if keys == [] then [] else RoundsByKey(rounds, keys[..|keys| - 1]) + RoundsOf(rounds, keys[|keys| - 1])
  }

  function OrderedRounds(rounds: seq<Round<string>>): seq<Round<string>> {
    RoundsByKey(rounds, StableSort(EventKeys(rounds), StringLess))
  }

  // --- The store ---

  // A row that belongs to one meet.
  datatype Owned<T> = Owned(meet: nat, row: T)

  // Identifiers from next on have never been issued.
  datatype Store = Store(
    next: nat, meets: seq<Owned<Header>>, sessions: seq<Owned<Session<nat>>>, clubs: seq<Club<nat>>,
    athletes: seq<Athlete<nat>>, participants: seq<(nat, nat)>, teams: seq<Team<nat>>, events: seq<Owned<Event<nat>>>,
    rounds: seq<Round<nat>>, units: seq<Unit<nat>>, entries: seq<Entry<nat>>, assignments: seq<Assignment<nat>>,
    results: seq<Outcome<nat>>)

  // What one kind of entity has become so far.
  datatype Filled<R> = Filled(rows: seq<R>, ids: map<string, nat>, next: nat)

  function FillOne<T, R>(make: (T, nat) -> Result<R, ImportError>, put: (seq<R>, R) -> Result<seq<R>, ImportError>,
                         idOf: T -> string, f: Filled<R>, item: T): Result<Filled<R>, ImportError>
  {
    var row :- make(item, f.next);
    var rows :- put(f.rows, row);
    Ok(Filled(rows, f.ids[idOf(item) := f.next], f.next + 1))
  }

  function Fill<T, R>(make: (T, nat) -> Result<R, ImportError>, put: (seq<R>, R) -> Result<seq<R>, ImportError>,
                      idOf: T -> string, start: Filled<R>, items: seq<T>): Result<Filled<R>, ImportError>
  {
    if items == [] then Ok(start) else
    var before :- Fill(make, put, idOf, start, items[..|items| - 1]);
    FillOne(make, put, idOf, before, items[|items| - 1])
  }

  // One loop of the import: each entity gets a fresh identifier, its row is stored, and the
  // document's identifier is remembered.
  method FillTable<T, R>(make: (T, nat) -> Result<R, ImportError>, put: (seq<R>, R) -> Result<seq<R>, ImportError>,
                         idOf: T -> string, start: Filled<R>, items: seq<T>)
    returns (r: Result<Filled<R>, ImportError>)
    ensures r == Fill(make, put, idOf, start, items)
  {
    var f := start;
    for i := 0 to |items|
      invariant Fill(make, put, idOf, start, items[..i]) == Ok(f)
    {
      assert items[..i + 1][..i] == items[..i];
      var row := make(items[i], f.next);
      if row.Err? {
        FillStops(make, put, idOf, start, items, i + 1);
        return Err(row.error);
      }
      var rows := put(f.rows, row.value);
      if rows.Err? {
        FillStops(make, put, idOf, start, items, i + 1);
        return Err(rows.error);
      }
      f := Filled(rows.value, f.ids[idOf(items[i]) := f.next], f.next + 1);
    }
    assert items[..|items|] == items;
    return Ok(f);
  }

  lemma {:induction false} FillStops<T, R>(
    make: (T, nat) -> Result<R, ImportError>, put: (seq<R>, R) -> Result<seq<R>, ImportError>, idOf: T -> string,
    start: Filled<R>, items: seq<T>, n: nat)
    requires n <= |items| && Fill(make, put, idOf, start, items[..n]).Err?
    ensures Fill(make, put, idOf, start, items) == Fill(make, put, idOf, start, items[..n])
    decreases |items| - n
  {
    if n == |items| {
      assert items[..n] == items;
    } else {
      assert items[..n + 1][..n] == items[..n];
      FillStops(make, put, idOf, start, items, n + 1);
    }
  }

  // --- Rows ---

  function Resolve(ids: map<string, nat>, id: string): Result<nat, ImportError> {
    if id in ids then Ok(ids[id]) else Err(UnknownReference)
  }

  // Unknown identifiers are dropped.
  function Remap(ids: seq<string>, m: map<string, nat>): (r: seq<nat>)
    ensures |r| <= |ids|
    ensures forall x <- r :: exists id :: id in ids && id in m && m[id] == x
    ensures forall id <- ids :: id in m ==> m[id] in r
  {
    if ids == [] then [] else
    assert ids == ids[..|ids| - 1] + [ids[|ids| - 1]];
    Remap(ids[..|ids| - 1], m) + if ids[|ids| - 1] in m then [m[ids[|ids| - 1]]] else []
  }

  function OrElse(s: string, otherwise: string): string { if s == "" then otherwise else s }

  // Dates lose their time of day, blanks are filled in, external identifiers have no column.
  function StoredHeader(h: Header): Header {
    h.(start := DayOnly(h.start), end := DayOnly(h.end), status := OrElse(h.status, "draft"),
       positioning := OrElse(h.positioning, "federation_official"), externals := map[])
  }

  predicate HeaderStorable(h: Header) {
    && Instant(h.start) <= Instant(h.end)
    && (h.positioning == "" || h.positioning == "federation_official" || h.positioning == "primary")
  }

  function MakeSession(meet: nat): (Session<string>, nat) -> Result<Owned<Session<nat>>, ImportError> {
    (s: Session<string>, id: nat) =>
      if IsZero(s.day) then Err(Refused) else Ok(Owned(meet, Session(id, DayOnly(s.day), s.name)))
  }

  function StoredBirth(birth: Option<Moment>): Option<Moment> {
    if birth.Some? then Some(DayOnly(birth.value)) else None
  }

  // A full birth date decides the year.
  function BirthYear<I>(a: Athlete<I>): int { if a.birth.Some? then a.birth.value.year else a.year }

  function MakeClub(): (Club<string>, nat) -> Result<Club<nat>, ImportError> {
    (c: Club<string>, id: nat) => Ok(Club(id, c.name, c.rest))
  }

  // Para classes have no column.
  function MakeAthlete(clubs: map<string, nat>): (Athlete<string>, nat) -> Result<Athlete<nat>, ImportError> {
    (a: Athlete<string>, id: nat) =>
      if BirthYear(a) == 0 then Err(Refused)
      else Ok(Athlete(id, Remap(a.clubs, clubs), a.lastName, a.sex, StoredBirth(a.birth), BirthYear(a), [], a.rest))
  }

  function MakeTeam(clubs: map<string, nat>, athletes: map<string, nat>)
    : (Team<string>, nat) -> Result<Team<nat>, ImportError>
  {
    (t: Team<string>, id: nat) =>
      var club :- Resolve(clubs, t.club);
      Ok(Team(id, club, Remap(t.legs, athletes), Remap(t.reserves, athletes)))
  }

  function MakeEvent(meet: nat): (Event<string>, nat) -> Result<Owned<Event<nat>>, ImportError> {
    (e: Event<string>, id: nat) =>
      Ok(Owned(meet, Event(id, e.discipline, e.categories, OrElse(e.status, "draft"), e.rest)))
  }

  function MakeRound(events: map<string, nat>): (Round<string>, nat) -> Result<Round<nat>, ImportError> {
    (r: Round<string>, id: nat) =>
      var event :- Resolve(events, r.event);
      Ok(Round(id, event, r.kind, r.order))
  }

  // The zero time means not scheduled.
  function StoredSchedule(at: Option<int>): Option<int> { if at == Some(0) then None else at }

  // An announcement is posted anew at the time of import, as the first of its unit; its number
  // is not exported.
  function MakeUnit(rounds: map<string, nat>, now: int): (Unit<string>, nat) -> Result<Unit<nat>, ImportError> {
    (u: Unit<string>, id: nat) =>
      var round :- Resolve(rounds, u.round);
      Ok(Unit(id, round, StoredSchedule(u.scheduled), if u.announced.Some? then Some(now) else None, 0, u.rest))
  }

  function Reference(ids: map<string, nat>, id: Option<string>): Result<Option<nat>, ImportError> {
    if id.None? then Ok(None) else
    var known :- Resolve(ids, id.value);
    Ok(Some(known))
  }

  function MakeEntry(events: map<string, nat>, athletes: map<string, nat>, teams: map<string, nat>)
    : (Entry<string>, nat) -> Result<Entry<nat>, ImportError>
  {
    (e: Entry<string>, id: nat) =>
      var event :- Resolve(events, e.event);
      var athlete :- Reference(athletes, e.athlete);
      var team :- Reference(teams, e.team);
      Ok(Entry(id, event, athlete, team, OrElse(e.status, "entered"), OrElse(e.source, "online"), e.rest))
  }

  const ADVANCEMENT_CODES: set<string> := {"", "Q", "q", "qR", "qJ", "qD"}

  const RESULT_SOURCES: set<string> := {"manual", "import_lif", "import_csv"}

  function MakeAssignment(units: map<string, nat>, entries: map<string, nat>)
    : (Assignment<string>, nat) -> Result<Assignment<nat>, ImportError>
  {
    (a: Assignment<string>, id: nat) =>
      var unit :- Resolve(units, a.unit);
      var entry :- Resolve(entries, a.entry);
      if a.code !in ADVANCEMENT_CODES then Err(Refused) else Ok(Assignment(id, unit, entry, a.lane, a.code, a.rest))
  }

  function MakeOutcome(units: map<string, nat>, athletes: map<string, nat>)
    : (Outcome<string>, nat) -> Result<Outcome<nat>, ImportError>
  {
    (r: Outcome<string>, id: nat) =>
      var unit :- Resolve(units, r.unit);
      var athlete :- Resolve(athletes, r.athlete);
      if OrElse(r.source, "manual") !in RESULT_SOURCES then Err(Refused)
      else Ok(Outcome(id, unit, athlete, OrElse(r.source, "manual"), r.rest))
  }

  // --- What the tables refuse ---

  function Append<R>(): (seq<R>, R) -> Result<seq<R>, ImportError> { (rows: seq<R>, r: R) => Ok(rows + [r]) }

  function PutClub(): (seq<Club<nat>>, Club<nat>) -> Result<seq<Club<nat>>, ImportError> {
    (rows: seq<Club<nat>>, c: Club<nat>) =>
      if exists x <- rows :: x.name == c.name then Err(Refused) else Ok(rows + [c])
  }

  predicate NoRepeats(s: seq<nat>) { s == [] || (s[0] !in s[1..] && NoRepeats(s[1..])) }

  function PutTeam(): (seq<Team<nat>>, Team<nat>) -> Result<seq<Team<nat>>, ImportError> {
    (rows: seq<Team<nat>>, t: Team<nat>) =>
      if t.legs == [] || !NoRepeats(t.legs + t.reserves) then Err(Refused) else Ok(rows + [t])
  }

  function PutRound(): (seq<Round<nat>>, Round<nat>) -> Result<seq<Round<nat>>, ImportError> {
    (rows: seq<Round<nat>>, r: Round<nat>) => if r.kind == "" then Err(Refused) else Ok(rows + [r])
  }

  predicate SameEntry(x: Entry<nat>, e: Entry<nat>) {
    x.event == e.event && ((e.athlete.Some? && x.athlete == e.athlete) || (e.team.Some? && x.team == e.team))
  }

  function PutEntry(): (seq<Entry<nat>>, Entry<nat>) -> Result<seq<Entry<nat>>, ImportError> {
    (rows: seq<Entry<nat>>, e: Entry<nat>) =>
      if exists x <- rows :: SameEntry(x, e) then Err(Refused) else Ok(rows + [e])
  }

  function SameSlot(a: Assignment<nat>): Assignment<nat> -> bool {
    (x: Assignment<nat>) => x.unit == a.unit && x.entry == a.entry
  }

  predicate SameLane(x: Assignment<nat>, a: Assignment<nat>) {
    x.unit == a.unit && x.lane == a.lane != 0 && x.entry != a.entry
  }

  // An entry already placed in the unit is placed anew; a drawn lane is used once.
  function PutAssignment(): (seq<Assignment<nat>>, Assignment<nat>) -> Result<seq<Assignment<nat>>, ImportError> {
    (rows: seq<Assignment<nat>>, a: Assignment<nat>) =>
      if exists x <- rows :: SameLane(x, a) then Err(Refused) else
      var k := FirstIndex(SameSlot(a), rows);
      if k < |rows| then Ok(rows[k := a.(id := rows[k].id)]) else Ok(rows + [a])
  }

  function SameResult(r: Outcome<nat>): Outcome<nat> -> bool {
    (x: Outcome<nat>) => x.unit == r.unit && x.athlete == r.athlete
  }

  // A second result of an athlete in a unit replaces the first.
  function PutOutcome(): (seq<Outcome<nat>>, Outcome<nat>) -> Result<seq<Outcome<nat>>, ImportError> {
    (rows: seq<Outcome<nat>>, r: Outcome<nat>) =>
      var k := FirstIndex(SameResult(r), rows);
      if k < |rows| then Ok(rows[k := r.(id := rows[k].id)]) else Ok(rows + [r])
  }

  // --- The import ---

  datatype People = People(sessions: Filled<Owned<Session<nat>>>, clubs: Filled<Club<nat>>,
                           athletes: Filled<Athlete<nat>>, teams: Filled<Team<nat>>)

  datatype Programme = Programme(events: Filled<Owned<Event<nat>>>, rounds: Filled<Round<nat>>,
                                 units: Filled<Unit<nat>>)

  datatype Record = Record(entries: Filled<Entry<nat>>, assignments: Filled<Assignment<nat>>,
                           results: Filled<Outcome<nat>>)

  function ImportPeople(st: Store, doc: Document<string>): Result<People, ImportError> {
    var sessions :- Fill(MakeSession(st.next), Append(), SessionId(), Filled(st.sessions, map[], st.next + 1), doc.sessions);
    var clubs :- Fill(MakeClub(), PutClub(), ClubId(), Filled(st.clubs, map[], sessions.next), doc.clubs);
    var athletes :- Fill(MakeAthlete(clubs.ids), Append(), AthleteId(), Filled(st.athletes, map[], clubs.next), doc.athletes);
    var teams :- Fill(MakeTeam(clubs.ids, athletes.ids), PutTeam(), TeamId(), Filled(st.teams, map[], athletes.next), doc.teams);
    Ok(People(sessions, clubs, athletes, teams))
  }

  function ImportProgramme(st: Store, doc: Document<string>, next: nat, now: int): Result<Programme, ImportError> {
    var events :- Fill(MakeEvent(st.next), Append(), EventId(), Filled(st.events, map[], next), doc.events);
    var rounds :- Fill(MakeRound(events.ids), PutRound(), RoundId(), Filled(st.rounds, map[], events.next),
                       OrderedRounds(doc.rounds));
    var units :- Fill(MakeUnit(rounds.ids, now), Append(), UnitId(), Filled(st.units, map[], rounds.next), doc.units);
    Ok(Programme(events, rounds, units))
  }

  function ImportRecord(st: Store, doc: Document<string>, p: People, g: Programme): Result<Record, ImportError> {
    var entries :- Fill(MakeEntry(g.events.ids, p.athletes.ids, p.teams.ids), PutEntry(), EntryId(),
                        Filled(st.entries, map[], g.units.next), doc.entries);
    var assignments :- Fill(MakeAssignment(g.units.ids, entries.ids), PutAssignment(), AssignmentId(),
                            Filled(st.assignments, map[], entries.next), doc.assignments);
    var results :- Fill(MakeOutcome(g.units.ids, p.athletes.ids), PutOutcome(), OutcomeId(),
                        Filled(st.results, map[], assignments.next), doc.results);
    Ok(Record(entries, assignments, results))
  }

  function Added<R>(before: seq<R>, after: seq<R>): seq<R> {
    if |before| <= |after| then after[|before|..] else []
  }

  function Registered(meet: nat): Athlete<nat> -> (nat, nat) { (a: Athlete<nat>) => (meet, a.id) }

  // Every imported athlete is registered for the meet.
  function Stored(st: Store, doc: Document<string>, p: People, g: Programme, r: Record): Store {
    Store(r.results.next, st.meets + [Owned(st.next, StoredHeader(doc.header))], p.sessions.rows, p.clubs.rows,
          p.athletes.rows, st.participants + Map(Registered(st.next), Added(st.athletes, p.athletes.rows)),
          p.teams.rows, g.events.rows, g.rounds.rows, g.units.rows, r.entries.rows, r.assignments.rows,
          r.results.rows)
  }

  // The store after a successful import, and the new meet.
  ghost function Import(st: Store, doc: Document<string>, now: int): Result<(Store, nat), ImportError> {
    if !Valid(doc) then Err(Invalid) else
    if !HeaderStorable(doc.header) then Err(Refused) else
    var p :- ImportPeople(st, doc);
    var g :- ImportProgramme(st, doc, p.teams.next, now);
    var r :- ImportRecord(st, doc, p, g);
    Ok((Stored(st, doc, p, g, r), st.next))
  }

  // One transaction: a failure leaves the store as it was.
  class Instance {
    var store: Store

    constructor (store: Store)
      ensures this.store == store
    {
      this.store := store;
    }

    method ImportOMXDocument(doc: Document<string>, now: int) returns (r: Result<nat, ImportError>)
      modifies this
      ensures var done := Import(old(store), doc, now);
              if done.Ok? then store == done.value.0 && r == Ok(done.value.1)
              else store == old(store) && r == Err(done.error)
    {
      var valid := ValidateOMX(doc);
      if valid.Err? {
        return Err(Invalid);
      }
      if !HeaderStorable(doc.header) {
        return Err(Refused);
      }
      var st := store;
      var p :- FillPeople(st, doc);
      var g :- FillProgramme(st, doc, p.teams.next, now);
      var record :- FillRecord(st, doc, p, g);
      store := Stored(st, doc, p, g, record);
      return Ok(st.next);
    }
  }

  method FillPeople(st: Store, doc: Document<string>) returns (r: Result<People, ImportError>)
    ensures r == ImportPeople(st, doc)
  {
    var sessions :- FillTable(MakeSession(st.next), Append(), SessionId(), Filled(st.sessions, map[], st.next + 1), doc.sessions);
    var clubs :- FillTable(MakeClub(), PutClub(), ClubId(), Filled(st.clubs, map[], sessions.next), doc.clubs);
    var athletes :- FillTable(MakeAthlete(clubs.ids), Append(), AthleteId(), Filled(st.athletes, map[], clubs.next), doc.athletes);
    var teams :- FillTable(MakeTeam(clubs.ids, athletes.ids), PutTeam(), TeamId(), Filled(st.teams, map[], athletes.next), doc.teams);
    return Ok(People(sessions, clubs, athletes, teams));
  }

  method FillProgramme(st: Store, doc: Document<string>, next: nat, now: int) returns (r: Result<Programme, ImportError>)
    ensures r == ImportProgramme(st, doc, next, now)
  {
    var events :- FillTable(MakeEvent(st.next), Append(), EventId(), Filled(st.events, map[], next), doc.events);
    var rounds :- FillTable(MakeRound(events.ids), PutRound(), RoundId(), Filled(st.rounds, map[], events.next),
                            OrderedRounds(doc.rounds));
    var units :- FillTable(MakeUnit(rounds.ids, now), Append(), UnitId(), Filled(st.units, map[], rounds.next), doc.units);
    return Ok(Programme(events, rounds, units));
  }

  method FillRecord(st: Store, doc: Document<string>, p: People, g: Programme) returns (r: Result<Record, ImportError>)
    ensures r == ImportRecord(st, doc, p, g)
  {
    var entries :- FillTable(MakeEntry(g.events.ids, p.athletes.ids, p.teams.ids), PutEntry(), EntryId(),
                             Filled(st.entries, map[], g.units.next), doc.entries);
    var assignments :- FillTable(MakeAssignment(g.units.ids, entries.ids), PutAssignment(), AssignmentId(),
                                 Filled(st.assignments, map[], entries.next), doc.assignments);
    var results :- FillTable(MakeOutcome(g.units.ids, p.athletes.ids), PutOutcome(), OutcomeId(),
                             Filled(st.results, map[], assignments.next), doc.results);
    return Ok(Record(entries, assignments, results));
  }

  // --- The export ---

  function MeetOf<T>(meet: nat): Owned<T> -> bool { (o: Owned<T>) => o.meet == meet }

  function RowIn<T>(): Owned<T> -> T { (o: Owned<T>) => o.row }

  function RoundWithin(events: set<nat>): Round<nat> -> bool { (r: Round<nat>) => r.event in events }
  function UnitWithin(rounds: set<nat>): Unit<nat> -> bool { (u: Unit<nat>) => u.round in rounds }
  function EntryWithin(events: set<nat>): Entry<nat> -> bool { (e: Entry<nat>) => e.event in events }
  function AssignmentWithin(units: set<nat>): Assignment<nat> -> bool { (a: Assignment<nat>) => a.unit in units }
  function OutcomeWithin(units: set<nat>): Outcome<nat> -> bool { (r: Outcome<nat>) => r.unit in units }
  function AthleteWithin(ids: set<nat>): Athlete<nat> -> bool { (a: Athlete<nat>) => a.id in ids }
  function TeamWithin(ids: set<nat>): Team<nat> -> bool { (t: Team<nat>) => t.id in ids }
  function ClubWithin(ids: set<nat>): Club<nat> -> bool { (c: Club<nat>) => c.id in ids }

  // A round's place in the progression of its event.
  function Before(r: Round<nat>): Round<nat> -> bool {
    (x: Round<nat>) => x.event == r.event && x.order < r.order
  }

  function Renumbered(rounds: seq<Round<nat>>): Round<nat> -> Round<nat> {
    (r: Round<nat>) => r.(order := Count(Before(r), rounds))
  }

  const NO_DAY := Moment(1, 0, 0, 0)

  const NO_HEADER := Header("", NO_DAY, NO_DAY, "", "", map[], "")

  // Events, rounds, units and what hangs on them, for one meet.
  function ExportProgramme(st: Store, meet: nat): Document<nat> {
    var events := Map(RowIn<Event<nat>>(), Filter(MeetOf(meet), st.events));
    var eventIds := set e <- events :: e.id;
    var rounds := Filter(RoundWithin(eventIds), st.rounds);
    var roundIds := set r <- rounds :: r.id;
    var units := Filter(UnitWithin(roundIds), st.units);
    var unitIds := set u <- units :: u.id;
    Document(OMX_V1, meet, NO_HEADER, Map(RowIn<Session<nat>>(), Filter(MeetOf(meet), st.sessions)), [], [], [], events,
             Map(Renumbered(rounds), rounds), units, Filter(EntryWithin(eventIds), st.entries),
             Filter(AssignmentWithin(unitIds), st.assignments), Filter(OutcomeWithin(unitIds), st.results))
  }

  // Participants, and whoever an entry or a result names.
  function AthletesNamed(st: Store, meet: nat, d: Document<nat>): set<nat> {
    (set p <- st.participants | p.0 == meet :: p.1)
    + (set e <- d.entries | e.athlete.Some? :: e.athlete.value)
    + (set r <- d.results :: r.athlete)
  }

  function TeamsNamed<I>(entries: seq<Entry<I>>): set<I> { set e <- entries | e.team.Some? :: e.team.value }

  function ClubsNamed<I>(athletes: seq<Athlete<I>>, teams: seq<Team<I>>): set<I> {
    (set a <- athletes, c <- a.clubs :: c) + (set t <- teams :: t.club)
  }

  function Export(st: Store, meet: nat): Result<Document<nat>, ImportError> {
    var k := FirstIndex(MeetOf<Header>(meet), st.meets);
    if k == |st.meets| then Err(UnknownReference) else
    var d := ExportProgramme(st, meet);
    var athleteIds, teamIds := AthletesNamed(st, meet, d), TeamsNamed(d.entries);
    var athletes, teams := Filter(AthleteWithin(athleteIds), st.athletes), Filter(TeamWithin(teamIds), st.teams);
    var clubIds := ClubsNamed(athletes, teams);
    var clubs := Filter(ClubWithin(clubIds), st.clubs);
    if !(athleteIds <= (set a <- athletes :: a.id)) || !(teamIds <= (set t <- teams :: t.id))
       || !(clubIds <= (set c <- clubs :: c.id)) then Err(UnknownReference)
    else Ok(d.(header := st.meets[k].row, clubs := clubs, athletes := athletes, teams := teams))
  }
}
