// What a valid document is, entity by entity, and what comes back of it, field by field.
module OmxMeaning {
  import opened Basics
  import opened Omx
  import opened OmxCopies
  import opened OmxRoundTrip
  import opened OmxImported

  // --- Valid documents ---

  ghost predicate PeopleSound(doc: Document<string>) {
    && (forall c <- doc.clubs :: c.id != "" && c.name != "")
    && (forall a <- doc.athletes :: a.id != "" && a.lastName != "" && (a.sex == "M" || a.sex == "W"))
    && (forall t <- doc.teams :: t.id != "" && t.club != "" && t.legs != [] && exists c <- doc.clubs :: c.id == t.club)
  }

  ghost predicate ProgrammeSound(doc: Document<string>) {
    && (forall e <- doc.events :: e.id != "" && e.discipline != "" && e.categories != [])
    && (forall r <- doc.rounds :: r.id != "" && exists e <- doc.events :: e.id == r.event)
    && (forall u <- doc.units :: u.id != "" && exists r <- doc.rounds :: r.id == u.round)
  }

  // An entry is one athlete's or one team's.
  ghost predicate EntriesSound(doc: Document<string>) {
    forall e <- doc.entries ::
      && e.id != "" && (exists v <- doc.events :: v.id == e.event)
      && match (e.athlete, e.team)
         case (Some(athlete), None) => exists a <- doc.athletes :: a.id == athlete
         case (None, Some(team)) => exists t <- doc.teams :: t.id == team
         case _ => false
  }

  ghost predicate RecordSound(doc: Document<string>) {
    && (forall a <- doc.assignments :: (exists u <- doc.units :: u.id == a.unit) && exists e <- doc.entries :: e.id == a.entry)
    && (forall r <- doc.results ::
          r.id != "" && (exists u <- doc.units :: u.id == r.unit) && exists a <- doc.athletes :: a.id == r.athlete)
  }

  lemma IdSetMeaning<T(!new)>(idOf: T -> string, items: seq<T>)
    ensures forall id :: id in IdSet(idOf, items) <==> exists x <- items :: idOf(x) == id
  {
    forall x | x in items ensures idOf(x) in IdSet(idOf, items) { InIdSet(idOf, items, x); }
    forall id | id in IdSet(idOf, items) ensures exists x <- items :: idOf(x) == id {
      var x := Owner(idOf, items, id);
    }
  }

  lemma EachOk<T(!new)>(ok: T -> bool, items: seq<T>)
    ensures All(ok, items) <==> forall x <- items :: ok(x)
  {}

  lemma PeopleExactly(doc: Document<string>)
    ensures var k := KnownIn(doc);
            All(ClubOk(), doc.clubs) && All(AthleteOk(), doc.athletes) && All(TeamOk(k.clubs), doc.teams) <==> PeopleSound(doc)
  {
    IdSetMeaning(ClubId(), doc.clubs);
    EachOk(ClubOk(), doc.clubs);
    EachOk(AthleteOk(), doc.athletes);
    EachOk(TeamOk(KnownIn(doc).clubs), doc.teams);
    assert forall c :: ClubOk()(c) <==> c.id != "" && c.name != "";
    assert forall a :: AthleteOk()(a) <==> a.id != "" && a.lastName != "" && (a.sex == "M" || a.sex == "W");
    assert forall t :: TeamOk(KnownIn(doc).clubs)(t)
                       <==> t.id != "" && t.club != "" && t.legs != [] && exists c <- doc.clubs :: ClubId()(c) == t.club;
  }

  lemma EventsExactly(doc: Document<string>)
    ensures All(EventOk(), doc.events) <==> forall e <- doc.events :: e.id != "" && e.discipline != "" && e.categories != []
  {
    EachOk(EventOk(), doc.events);
    assert forall e :: EventOk()(e) <==> e.id != "" && e.discipline != "" && e.categories != [];
  }

  lemma RoundsExactly(doc: Document<string>)
    ensures All(RoundOk(KnownIn(doc).events), doc.rounds)
            <==> forall r <- doc.rounds :: r.id != "" && exists e <- doc.events :: e.id == r.event
  {
    var known := KnownIn(doc).events;
    IdSetMeaning(EventId(), doc.events);
    EachOk(RoundOk(known), doc.rounds);
    assert forall r :: RoundOk(known)(r) <==> r.id != "" && exists e <- doc.events :: EventId()(e) == r.event;
  }

  lemma UnitsExactly(doc: Document<string>)
    ensures All(UnitOk(KnownIn(doc).rounds), doc.units)
            <==> forall u <- doc.units :: u.id != "" && exists r <- doc.rounds :: r.id == u.round
  {
    var known := KnownIn(doc).rounds;
    IdSetMeaning(RoundId(), doc.rounds);
    EachOk(UnitOk(known), doc.units);
    assert forall u :: UnitOk(known)(u) <==> u.id != "" && exists r <- doc.rounds :: RoundId()(r) == u.round;
  }

  lemma EntriesExactly(doc: Document<string>)
    ensures var k := KnownIn(doc); All(EntryOk(k.events, k.athletes, k.teams), doc.entries) <==> EntriesSound(doc)
  {
    var k := KnownIn(doc);
    IdSetMeaning(EventId(), doc.events);
    IdSetMeaning(AthleteId(), doc.athletes);
    IdSetMeaning(TeamId(), doc.teams);
    EachOk(EntryOk(k.events, k.athletes, k.teams), doc.entries);
    forall e | e in doc.entries
      ensures EntryOk(k.events, k.athletes, k.teams)(e) <==>
              && e.id != "" && (exists v <- doc.events :: v.id == e.event)
              && match (e.athlete, e.team)
                 case (Some(athlete), None) => exists a <- doc.athletes :: a.id == athlete
                 case (None, Some(team)) => exists t <- doc.teams :: t.id == team
                 case _ => false
    {
      assert (exists v <- doc.events :: EventId()(v) == e.event) <==> exists v <- doc.events :: v.id == e.event;
      if e.athlete.Some? {
        assert (exists a <- doc.athletes :: AthleteId()(a) == e.athlete.value)
               <==> exists a <- doc.athletes :: a.id == e.athlete.value;
      }
      if e.team.Some? {
        assert (exists t <- doc.teams :: TeamId()(t) == e.team.value) <==> exists t <- doc.teams :: t.id == e.team.value;
      }
    }
  }

  lemma RecordExactly(doc: Document<string>)
    ensures var k := KnownIn(doc);
            All(AssignmentOk(k.units, k.entries), doc.assignments) && All(OutcomeOk(k.units, k.athletes), doc.results)
            <==> RecordSound(doc)
  {
    var k := KnownIn(doc);
    IdSetMeaning(UnitId(), doc.units);
    IdSetMeaning(EntryId(), doc.entries);
    IdSetMeaning(AthleteId(), doc.athletes);
    EachOk(AssignmentOk(k.units, k.entries), doc.assignments);
    EachOk(OutcomeOk(k.units, k.athletes), doc.results);
    assert forall a :: AssignmentOk(k.units, k.entries)(a) <==>
      (exists u <- doc.units :: UnitId()(u) == a.unit) && exists e <- doc.entries :: EntryId()(e) == a.entry;
    assert forall r :: OutcomeOk(k.units, k.athletes)(r) <==>
      r.id != "" && (exists u <- doc.units :: UnitId()(u) == r.unit) && exists a <- doc.athletes :: AthleteId()(a) == r.athlete;
  }

  // A document is valid exactly when it names its version, its meet and the meet's name, and
  // each entity has what it must have and points at entities of the document.
  lemma ValidExactly(doc: Document<string>)
    ensures Valid(doc) <==>
            && doc.version == "omx/v1" && doc.meet != "" && doc.header.name != ""
            && PeopleSound(doc) && ProgrammeSound(doc) && EntriesSound(doc) && RecordSound(doc)
  {
    PeopleExactly(doc);
    EventsExactly(doc);
    RoundsExactly(doc);
    UnitsExactly(doc);
    EntriesExactly(doc);
    RecordExactly(doc);
  }

  // --- What comes back ---

  // The references to entities the document has, in order.
  function KnownOf(ids: seq<string>, m: map<string, nat>): seq<nat> {
    Map(NewIds(m), Filter((id: string) => id in m, ids))
  }

  function Midnight(t: Moment): Moment { Moment(t.year, t.day, 0, 0) }

  function HeaderBack(h: Header): Header {
    Header(h.name, Midnight(h.start), Midnight(h.end), if h.status == "" then "draft" else h.status,
           if h.positioning == "" then "federation_official" else h.positioning, map[], h.rest)
  }

  function SessionBack(m: Ids): Session<string> -> Session<nat> {
    (s: Session<string>) => Session(At(m.sessions, s.id), Midnight(s.day), s.name)
  }

  // A birth date decides the year.
  function AthleteBack(m: Ids): Athlete<string> -> Athlete<nat> {
    (a: Athlete<string>) =>
      var (birth, year) := if a.birth.None? then (None, a.year) else (Some(Midnight(a.birth.value)), a.birth.value.year);
      Athlete(At(m.athletes, a.id), KnownOf(a.clubs, m.clubs), a.lastName, a.sex, birth, year, [], a.rest)
  }

  function TeamBack(m: Ids): Team<string> -> Team<nat> {
    (t: Team<string>) =>
      Team(At(m.teams, t.id), At(m.clubs, t.club), KnownOf(t.legs, m.athletes), KnownOf(t.reserves, m.athletes))
  }

  function EventBack(m: Ids): Event<string> -> Event<nat> {
    (e: Event<string>) =>
      Event(At(m.events, e.id), e.discipline, e.categories, if e.status == "" then "draft" else e.status, e.rest)
  }

  function UnitBack(m: Ids, now: int): Unit<string> -> Unit<nat> {
    (u: Unit<string>) =>
      Unit(At(m.units, u.id), At(m.rounds, u.round), if u.scheduled == Some(0) then None else u.scheduled,
           if u.announced.Some? then Some(now) else None, 0, u.rest)
  }

  function EntryBack(m: Ids): Entry<string> -> Entry<nat> {
    (e: Entry<string>) =>
      Entry(At(m.entries, e.id), At(m.events, e.event), Follow(m.athletes, e.athlete), Follow(m.teams, e.team),
            if e.status == "" then "entered" else e.status, if e.source == "" then "online" else e.source, e.rest)
  }

  function OutcomeBack(m: Ids): Outcome<string> -> Outcome<nat> {
    (r: Outcome<string>) =>
      Outcome(At(m.results, r.id), At(m.units, r.unit), At(m.athletes, r.athlete),
              if r.source == "" then "manual" else r.source, r.rest)
  }

  predicate TeamNeeded(doc: Document<string>, t: Team<string>) { exists e <- doc.entries :: e.team == Some(t.id) }

  predicate ClubNeeded(doc: Document<string>, c: Club<string>) {
    || (exists a <- doc.athletes :: c.id in a.clubs)
    || (exists t <- doc.teams :: TeamNeeded(doc, t) && t.club == c.id)
  }

  // The renamed document, less what has no column or is not referred to, with blanks filled in.
  function ComesBackAs(doc: Document<string>, m: Ids, now: int, meet: nat): Document<nat> {
    Renamed(doc, m, now, meet).(
      header := HeaderBack(doc.header), sessions := Map(SessionBack(m), doc.sessions),
      clubs := Map(RenameClub(m), Filter((c: Club<string>) => ClubNeeded(doc, c), doc.clubs)),
      athletes := Map(AthleteBack(m), doc.athletes),
      teams := Map(TeamBack(m), Filter((t: Team<string>) => TeamNeeded(doc, t), doc.teams)),
      events := Map(EventBack(m), doc.events), units := Map(UnitBack(m, now), doc.units),
      entries := Map(EntryBack(m), doc.entries), results := Map(OutcomeBack(m), doc.results))
  }

  lemma {:induction false} RemapMeaning(ids: seq<string>, m: map<string, nat>)
    ensures Remap(ids, m) == KnownOf(ids, m)
  {
    if ids != [] {
      var init, last := ids[..|ids| - 1], ids[|ids| - 1];
      RemapMeaning(init, m);
      assert ids == init + [last];
      KnownOfLast(init, last, m);
    }
  }

  lemma KnownOfLast(init: seq<string>, last: string, m: map<string, nat>)
    ensures KnownOf(init + [last], m) == KnownOf(init, m) + if last in m then [m[last]] else []
  {
    var known := (id: string) => id in m;
    FilterAppend(known, init, [last]);
    if last in m { MapLast(NewIds(m), Filter(known, init) + [last]); }
  }

  lemma PeopleBack(doc: Document<string>, m: Ids)
    ensures Map(CopyAthlete(m.athletes, m.clubs), doc.athletes) == Map(AthleteBack(m), doc.athletes)
    ensures forall teams :: Map(CopyTeam(m.teams, m.clubs, m.athletes), teams) == Map(TeamBack(m), teams)
    ensures forall clubs :: Map(CopyClub(m.clubs), clubs) == Map(RenameClub(m), clubs)
  {
    forall a | a in doc.athletes ensures CopyAthlete(m.athletes, m.clubs)(a) == AthleteBack(m)(a) {
      RemapMeaning(a.clubs, m.clubs);
    }
    PlainMap(CopyAthlete(m.athletes, m.clubs), AthleteBack(m), doc.athletes);
    forall teams ensures Map(CopyTeam(m.teams, m.clubs, m.athletes), teams) == Map(TeamBack(m), teams) {
      forall t | t in teams ensures CopyTeam(m.teams, m.clubs, m.athletes)(t) == TeamBack(m)(t) {
        RemapMeaning(t.legs, m.athletes);
        RemapMeaning(t.reserves, m.athletes);
      }
      PlainMap(CopyTeam(m.teams, m.clubs, m.athletes), TeamBack(m), teams);
    }
    forall clubs ensures Map(CopyClub(m.clubs), clubs) == Map(RenameClub(m), clubs) {
      PlainMap(CopyClub(m.clubs), RenameClub(m), clubs);
    }
  }

  lemma NeededAre(doc: Document<string>)
    ensures Filter((t: Team<string>) => TeamNeeded(doc, t), doc.teams) == Filter(TeamUsed(doc.entries), doc.teams)
    ensures Filter((c: Club<string>) => ClubNeeded(doc, c), doc.clubs)
         == Filter(ClubUsed(doc.athletes, Filter(TeamUsed(doc.entries), doc.teams)), doc.clubs)
  {
    var teams := Filter(TeamUsed(doc.entries), doc.teams);
    assert forall t :: TeamNeeded(doc, t) <==> TeamUsed(doc.entries)(t);
    FilterEq((t: Team<string>) => TeamNeeded(doc, t), TeamUsed(doc.entries), doc.teams);
    assert forall c :: ClubNeeded(doc, c) <==> ClubUsed(doc.athletes, teams)(c);
    FilterEq((c: Club<string>) => ClubNeeded(doc, c), ClubUsed(doc.athletes, teams), doc.clubs);
  }

  lemma ProgrammeBack(doc: Document<string>, m: Ids, now: int)
    ensures Map(SessionRow(m.sessions), doc.sessions) == Map(SessionBack(m), doc.sessions)
    ensures Map(EventRow(m.events), doc.events) == Map(EventBack(m), doc.events)
    ensures Map(CopyRound(m.rounds, m.events), OrderedRounds(doc.rounds)) == Map(RenameRound(m), OrderedRounds(doc.rounds))
    ensures Map(CopyUnit(m.units, m.rounds, now), doc.units) == Map(UnitBack(m, now), doc.units)
  {
    PlainMap(SessionRow(m.sessions), SessionBack(m), doc.sessions);
    PlainMap(EventRow(m.events), EventBack(m), doc.events);
    PlainMap(CopyRound(m.rounds, m.events), RenameRound(m), OrderedRounds(doc.rounds));
    PlainMap(CopyUnit(m.units, m.rounds, now), UnitBack(m, now), doc.units);
  }

  lemma RecordBack(doc: Document<string>, m: Ids)
    ensures Map(CopyEntry(m.entries, m.events, m.athletes, m.teams), doc.entries) == Map(EntryBack(m), doc.entries)
    ensures Map(CopyAssignment(m.assignments, m.units, m.entries), doc.assignments) == Map(RenameAssignment(m), doc.assignments)
    ensures Map(CopyOutcome(m.results, m.units, m.athletes), doc.results) == Map(OutcomeBack(m), doc.results)
  {
    PlainMap(CopyEntry(m.entries, m.events, m.athletes, m.teams), EntryBack(m), doc.entries);
    PlainMap(CopyAssignment(m.assignments, m.units, m.entries), RenameAssignment(m), doc.assignments);
    PlainMap(CopyOutcome(m.results, m.units, m.athletes), OutcomeBack(m), doc.results);
  }

  // What comes back is the renamed document changed in exactly the ways written out here.
  lemma ReturnedMeaning(doc: Document<string>, m: Ids, now: int, meet: nat)
    ensures Returned(doc, m, now, meet) == ComesBackAs(doc, m, now, meet)
  {
    PeopleBack(doc, m);
    NeededAre(doc);
    ProgrammeBack(doc, m, now);
    RecordBack(doc, m);
    assert StoredHeader(doc.header) == HeaderBack(doc.header);
  }

  // Import into any store followed by export gives the document back so changed.
  lemma ComesBack(st: Store, doc: Document<string>, now: int) returns (m: Ids)
    requires Valid(doc) && DistinctIds(doc) && Keyed(st, doc) && Closed(st)
    ensures Renames(m, KnownIn(doc), st.next)
    ensures Import(st, doc, now).Ok?
    ensures Export(Import(st, doc, now).value.0, st.next) == Ok(ComesBackAs(doc, m, now, st.next))
  {
    m := RoundTrip(st, doc, now);
    ReturnedMeaning(doc, m, now, st.next);
  }
}
