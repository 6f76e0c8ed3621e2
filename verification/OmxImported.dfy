// The whole import of a document with distinct identifiers and keys: it succeeds, and leaves
// one copy of every entity under new identifiers.
module OmxImported {
  import opened Basics
  import opened Omx
  import opened OmxCopies
  import I = OmxImport

  // The identifiers an import handed out, kind by kind.
  datatype Ids = Ids(sessions: map<string, nat>, clubs: map<string, nat>, athletes: map<string, nat>,
                     teams: map<string, nat>, events: map<string, nat>, rounds: map<string, nat>,
                     units: map<string, nat>, entries: map<string, nat>, assignments: map<string, nat>,
                     results: map<string, nat>)

  // --- Documents the store takes whole ---

  ghost predicate DistinctIds(doc: Document<string>) {
    && Distinct(Map(SessionId(), doc.sessions)) && Distinct(Map(ClubId(), doc.clubs))
    && Distinct(Map(AthleteId(), doc.athletes)) && Distinct(Map(TeamId(), doc.teams))
    && Distinct(Map(EventId(), doc.events)) && Distinct(Map(RoundId(), doc.rounds))
    && Distinct(Map(UnitId(), doc.units)) && Distinct(Map(EntryId(), doc.entries))
    && Distinct(Map(AssignmentId(), doc.assignments)) && Distinct(Map(OutcomeId(), doc.results))
  }

  // Every entity passes the store's own check of it.
  ghost predicate Storable(doc: Document<string>) {
    && HeaderStorable(doc.header) && (forall s <- doc.sessions :: !IsZero(s.day))
    && (forall a <- doc.athletes :: BirthYear(a) != 0) && (forall a <- doc.assignments :: a.code in ADVANCEMENT_CODES)
    && (forall r <- doc.results :: OrElse(r.source, "manual") in RESULT_SOURCES)
  }

  // The rules of the store hold within the document, and its club names are free.
  ghost predicate Keyed(st: Store, doc: Document<string>) {
    && Storable(doc) && NamesFree(st.clubs, doc.clubs) && (forall t <- doc.teams :: TeamKeyed(KnownIn(doc).athletes, t))
    && (forall r <- doc.rounds :: r.kind != "")
    && EntriesKeyed(doc.entries) && AssignmentsKeyed(doc.assignments) && ResultsKeyed(doc.results)
  }

  // Every identifier in the store has been issued.
  ghost predicate Closed(st: Store) {
    && (forall o <- st.meets :: o.meet < st.next) && (forall o <- st.sessions :: o.meet < st.next)
    && (forall o <- st.events :: o.meet < st.next)
    && (forall c <- st.clubs :: c.id < st.next) && (forall a <- st.athletes :: a.id < st.next)
    && (forall p <- st.participants :: p.0 < st.next) && (forall t <- st.teams :: t.id < st.next)
    && (forall r <- st.rounds :: r.event < st.next) && (forall u <- st.units :: u.round < st.next)
    && (forall e <- st.entries :: e.event < st.next) && (forall a <- st.assignments :: a.unit < st.next)
    && (forall r <- st.results :: r.unit < st.next)
  }

  // --- What the import leaves ---

  ghost predicate PeopleCopied(st: Store, doc: Document<string>, m: Ids, p: People) {
    && p.sessions.rows == st.sessions + Map(CopySession(m.sessions, st.next), doc.sessions)
    && p.clubs.rows == st.clubs + Map(CopyClub(m.clubs), doc.clubs)
    && p.athletes.rows == st.athletes + Map(CopyAthlete(m.athletes, m.clubs), doc.athletes)
    && p.teams.rows == st.teams + Map(CopyTeam(m.teams, m.clubs, m.athletes), doc.teams)
  }

  ghost predicate ProgrammeCopied(st: Store, doc: Document<string>, m: Ids, now: int, g: Programme) {
    && g.events.rows == st.events + Map(CopyEvent(m.events, st.next), doc.events)
    && g.rounds.rows == st.rounds + Map(CopyRound(m.rounds, m.events), OrderedRounds(doc.rounds))
    && g.units.rows == st.units + Map(CopyUnit(m.units, m.rounds, now), doc.units)
  }

  ghost predicate RecordCopied(st: Store, doc: Document<string>, m: Ids, r: Record) {
    && r.entries.rows == st.entries + Map(CopyEntry(m.entries, m.events, m.athletes, m.teams), doc.entries)
    && r.assignments.rows == st.assignments + Map(CopyAssignment(m.assignments, m.units, m.entries), doc.assignments)
    && r.results.rows == st.results + Map(CopyOutcome(m.results, m.units, m.athletes), doc.results)
  }

  // New identifiers for every entity, no two alike within a kind.
  ghost predicate Renames(m: Ids, k: Known, floor: nat) {
    && Issues(m.clubs, k.clubs, floor) && Issues(m.athletes, k.athletes, floor) && Issues(m.teams, k.teams, floor)
    && Issues(m.events, k.events, floor) && Issues(m.rounds, k.rounds, floor) && Issues(m.units, k.units, floor)
    && Issues(m.entries, k.entries, floor)
  }

  lemma CopyPeople(st: Store, doc: Document<string>) returns (p: People)
    requires Distinct(Map(SessionId(), doc.sessions)) && Distinct(Map(ClubId(), doc.clubs))
    requires Distinct(Map(AthleteId(), doc.athletes)) && Distinct(Map(TeamId(), doc.teams))
    requires NamesFree(st.clubs, doc.clubs) && All(TeamOk(KnownIn(doc).clubs), doc.teams) && Storable(doc)
    requires forall t <- doc.teams :: TeamKeyed(KnownIn(doc).athletes, t)
    ensures ImportPeople(st, doc) == Ok(p) && st.next <= p.teams.next
    ensures p.sessions.rows == st.sessions + Map(CopySession(p.sessions.ids, st.next), doc.sessions)
    ensures p.clubs.rows == st.clubs + Map(CopyClub(p.clubs.ids), doc.clubs)
    ensures p.athletes.rows == st.athletes + Map(CopyAthlete(p.athletes.ids, p.clubs.ids), doc.athletes)
    ensures p.teams.rows == st.teams + Map(CopyTeam(p.teams.ids, p.clubs.ids, p.athletes.ids), doc.teams)
    ensures Issues(p.clubs.ids, KnownIn(doc).clubs, st.next) && Issues(p.athletes.ids, KnownIn(doc).athletes, st.next)
    ensures Issues(p.teams.ids, KnownIn(doc).teams, st.next)
  {
    var s := SessionsCopied(st.sessions, st.next + 1, doc.sessions, st.next, st.next);
    var c := ClubsCopied(st.clubs, s.next, doc.clubs, st.next);
    var a := AthletesCopied(st.athletes, c.next, doc.athletes, c.ids, st.next);
    var t := TeamsCopied(st.teams, a.next, doc.teams, c.ids, a.ids, st.next);
    PeopleAre(st, doc, s, c, a, t);
    p := People(s, c, a, t);
  }

  lemma PeopleAre(st: Store, doc: Document<string>, s: Filled<Owned<Session<nat>>>, c: Filled<Club<nat>>,
                  a: Filled<Athlete<nat>>, t: Filled<Team<nat>>)
    requires Fill(MakeSession(st.next), Append(), SessionId(), Filled(st.sessions, map[], st.next + 1), doc.sessions) == Ok(s)
    requires Fill(MakeClub(), PutClub(), ClubId(), Filled(st.clubs, map[], s.next), doc.clubs) == Ok(c)
    requires Fill(MakeAthlete(c.ids), Append(), AthleteId(), Filled(st.athletes, map[], c.next), doc.athletes) == Ok(a)
    requires Fill(MakeTeam(c.ids, a.ids), PutTeam(), TeamId(), Filled(st.teams, map[], a.next), doc.teams) == Ok(t)
    ensures ImportPeople(st, doc) == Ok(People(s, c, a, t))
  {}

  lemma WithinBound<T>(idOf: T -> string, items: seq<T>, bound: set<string>)
    requires IdSet(idOf, items) <= bound
    ensures forall x <- items :: idOf(x) in bound
  {
    forall x | x in items ensures idOf(x) in bound {
      var i :| 0 <= i < |items| && items[i] == x;
      assert idOf(items[i]) in IdSet(idOf, items);
    }
  }

  lemma OrderedDistinct(rounds: seq<Round<string>>)
    requires Distinct(Map(RoundId(), rounds))
    ensures Distinct(Map(RoundId(), OrderedRounds(rounds)))
  {
    I.OrderIgnored(rounds, RoundId());
    DistinctPermutation(Map(RoundId(), rounds), Map(RoundId(), OrderedRounds(rounds)));
  }

  lemma OrderedEvents(rounds: seq<Round<string>>, events: set<string>)
    requires All(RoundOk(events), rounds)
    ensures forall r <- OrderedRounds(rounds) :: I.RoundEvent()(r) in events
  {
    I.OrderedIds(rounds);
    I.EventsKnown(rounds, events);
    WithinBound(I.RoundEvent(), OrderedRounds(rounds), events);
  }

  lemma OrderedKinds(rounds: seq<Round<string>>)
    requires forall r <- rounds :: r.kind != ""
    ensures forall r <- OrderedRounds(rounds) :: I.RoundKind()(r) != ""
  {
    I.OrderIgnored(rounds, I.RoundKind());
    I.SameIds(I.RoundKind(), OrderedRounds(rounds), rounds);
    var kinds := IdSet(I.RoundKind(), rounds);
    assert "" !in kinds;
    WithinBound(I.RoundKind(), OrderedRounds(rounds), kinds);
  }

  // The ordered rounds are of known events and named.
  lemma OrderedStorable(rounds: seq<Round<string>>, events: set<string>)
    requires All(RoundOk(events), rounds) && forall r <- rounds :: r.kind != ""
    ensures forall r <- OrderedRounds(rounds) :: r.event in events && r.kind != ""
  {
    OrderedEvents(rounds, events);
    OrderedKinds(rounds);
    forall r | r in OrderedRounds(rounds) ensures r.event in events && r.kind != "" {
      assert I.RoundEvent()(r) in events && I.RoundKind()(r) != "";
    }
  }

  lemma CopyRounds(rows: seq<Round<nat>>, next: nat, rounds: seq<Round<string>>, events: map<string, nat>, floor: nat)
    returns (f: Filled<Round<nat>>)
    requires floor <= next && Distinct(Map(RoundId(), rounds)) && All(RoundOk(events.Keys), rounds)
    requires forall r <- rounds :: r.kind != ""
    ensures Fill(MakeRound(events), PutRound(), RoundId(), Filled(rows, map[], next), OrderedRounds(rounds)) == Ok(f)
    ensures f.rows == rows + Map(CopyRound(f.ids, events), OrderedRounds(rounds)) && next <= f.next
    ensures Issues(f.ids, IdSet(RoundId(), rounds), floor)
  {
    OrderedDistinct(rounds);
    OrderedStorable(rounds, events.Keys);
    f := RoundsCopied(rows, next, OrderedRounds(rounds), events, floor);
    OrderedRoundIds(rounds);
  }

  lemma OrderedRoundIds(rounds: seq<Round<string>>)
    ensures IdSet(RoundId(), OrderedRounds(rounds)) == IdSet(RoundId(), rounds)
  {
    I.OrderedIds(rounds);
  }

  lemma CopyProgramme(st: Store, doc: Document<string>, next: nat, now: int) returns (g: Programme)
    requires Distinct(Map(EventId(), doc.events)) && Distinct(Map(RoundId(), doc.rounds))
    requires Distinct(Map(UnitId(), doc.units)) && st.next <= next
    requires All(RoundOk(KnownIn(doc).events), doc.rounds) && All(UnitOk(KnownIn(doc).rounds), doc.units)
    requires forall r <- doc.rounds :: r.kind != ""
    ensures ImportProgramme(st, doc, next, now) == Ok(g) && st.next <= g.units.next
    ensures g.events.rows == st.events + Map(CopyEvent(g.events.ids, st.next), doc.events)
    ensures g.rounds.rows == st.rounds + Map(CopyRound(g.rounds.ids, g.events.ids), OrderedRounds(doc.rounds))
    ensures g.units.rows == st.units + Map(CopyUnit(g.units.ids, g.rounds.ids, now), doc.units)
    ensures Issues(g.events.ids, KnownIn(doc).events, st.next) && Issues(g.rounds.ids, KnownIn(doc).rounds, st.next)
    ensures Issues(g.units.ids, KnownIn(doc).units, st.next)
  {
    var e := EventsCopied(st.events, next, doc.events, st.next, st.next);
    var r := CopyRounds(st.rounds, e.next, doc.rounds, e.ids, st.next);
    var u := UnitsCopied(st.units, r.next, doc.units, r.ids, now, st.next);
    ProgrammeIs(st, doc, next, now, e, r, u);
    g := Programme(e, r, u);
  }

  lemma ProgrammeIs(st: Store, doc: Document<string>, next: nat, now: int, e: Filled<Owned<Event<nat>>>,
                    r: Filled<Round<nat>>, u: Filled<Unit<nat>>)
    requires Fill(MakeEvent(st.next), Append(), EventId(), Filled(st.events, map[], next), doc.events) == Ok(e)
    requires Fill(MakeRound(e.ids), PutRound(), RoundId(), Filled(st.rounds, map[], e.next), OrderedRounds(doc.rounds)) == Ok(r)
    requires Fill(MakeUnit(r.ids, now), Append(), UnitId(), Filled(st.units, map[], r.next), doc.units) == Ok(u)
    ensures ImportProgramme(st, doc, next, now) == Ok(Programme(e, r, u))
  {}

  lemma CopyRecord(st: Store, doc: Document<string>, p: People, g: Programme) returns (r: Record)
    requires Valid(doc) && DistinctIds(doc) && Storable(doc) && Closed(st) && st.next <= g.units.next
    requires EntriesKeyed(doc.entries) && AssignmentsKeyed(doc.assignments) && ResultsKeyed(doc.results)
    requires Issues(p.athletes.ids, KnownIn(doc).athletes, st.next) && Issues(p.teams.ids, KnownIn(doc).teams, st.next)
    requires Issues(g.events.ids, KnownIn(doc).events, st.next) && Issues(g.units.ids, KnownIn(doc).units, st.next)
    ensures ImportRecord(st, doc, p, g) == Ok(r)
    ensures r.entries.rows
         == st.entries + Map(CopyEntry(r.entries.ids, g.events.ids, p.athletes.ids, p.teams.ids), doc.entries)
    ensures r.assignments.rows
         == st.assignments + Map(CopyAssignment(r.assignments.ids, g.units.ids, r.entries.ids), doc.assignments)
    ensures r.results.rows
         == st.results + Map(CopyOutcome(r.results.ids, g.units.ids, p.athletes.ids), doc.results)
    ensures Issues(r.entries.ids, KnownIn(doc).entries, st.next)
  {
    var e := EntriesCopied(st.entries, g.units.next, doc.entries, g.events.ids, p.athletes.ids, p.teams.ids, st.next);
    var a := AssignmentsCopied(st.assignments, e.next, doc.assignments, g.units.ids, e.ids, st.next);
    var o := ResultsCopied(st.results, a.next, doc.results, g.units.ids, p.athletes.ids, st.next);
    r := Record(e, a, o);
    RecordIs(st, doc, p, g, e, a, o);
  }

  lemma RecordIs(st: Store, doc: Document<string>, p: People, g: Programme, e: Filled<Entry<nat>>,
                 a: Filled<Assignment<nat>>, o: Filled<Outcome<nat>>)
    requires Fill(MakeEntry(g.events.ids, p.athletes.ids, p.teams.ids), PutEntry(), EntryId(),
                  Filled(st.entries, map[], g.units.next), doc.entries) == Ok(e)
    requires Fill(MakeAssignment(g.units.ids, e.ids), PutAssignment(), AssignmentId(),
                  Filled(st.assignments, map[], e.next), doc.assignments) == Ok(a)
    requires Fill(MakeOutcome(g.units.ids, p.athletes.ids), PutOutcome(), OutcomeId(),
                  Filled(st.results, map[], a.next), doc.results) == Ok(o)
    ensures ImportRecord(st, doc, p, g) == Ok(Record(e, a, o))
  {}

  // With distinct identifiers and keys the import succeeds, and leaves one copy of every
  // entity, under identifiers never issued before, beside what the store already held.
  lemma ImportCopies(st: Store, doc: Document<string>, now: int) returns (m: Ids, p: People, g: Programme, r: Record)
    requires Valid(doc) && DistinctIds(doc) && Keyed(st, doc) && Closed(st)
    ensures Import(st, doc, now) == Ok((Stored(st, doc, p, g, r), st.next))
    ensures Renames(m, KnownIn(doc), st.next)
    ensures PeopleCopied(st, doc, m, p) && ProgrammeCopied(st, doc, m, now, g) && RecordCopied(st, doc, m, r)
  {
    p := CopyPeople(st, doc);
    g := CopyProgramme(st, doc, p.teams.next, now);
    r := CopyRecord(st, doc, p, g);
    m := Ids(p.sessions.ids, p.clubs.ids, p.athletes.ids, p.teams.ids, g.events.ids, g.rounds.ids, g.units.ids,
             r.entries.ids, r.assignments.ids, r.results.ids);
  }
}
