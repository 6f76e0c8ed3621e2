// What an import does with a valid document: it never meets an unknown reference, and with
// distinct identifiers and keys every entity becomes exactly one row under a fresh identifier.
module OmxImport {
  import opened Basics
  import opened Sorting
  import opened Omx

  // --- Rounds regrouped by event are the same rounds ---

  function KeyIn(keys: seq<string>): Round<string> -> bool { (r: Round<string>) => r.event in keys }

  lemma {:induction false} FilterUnion<T(!new)>(p: T -> bool, q: T -> bool, both: T -> bool, s: seq<T>)
    requires forall x <- s :: both(x) == (p(x) || q(x)) && !(p(x) && q(x))
    ensures multiset(Filter(both, s)) == multiset(Filter(p, s)) + multiset(Filter(q, s))
  {
    if s != [] {
      FilterUnion(p, q, both, s[1..]);
      assert s[0] in s;
    }
  }

  lemma MapAppend<A, B>(f: A -> B, a: seq<A>, b: seq<A>)
    ensures Map(f, a + b) == Map(f, a) + Map(f, b)
  {}

  // The rounds of one event, seen through g, are that event's rounds of the document seen through f.
  ghost predicate Regroups<B>(rounds: seq<Round<string>>, key: string, g: Round<string> -> B, f: Round<string> -> B) {
    multiset(Map(g, RoundsOf(rounds, key))) == multiset(Map(f, Filter(OfEvent(key), rounds)))
  }

  lemma {:induction false} ByKeyRegroups<B>(rounds: seq<Round<string>>, keys: seq<string>, g: Round<string> -> B,
                                            f: Round<string> -> B)
    requires Distinct(keys) && forall key <- keys :: Regroups(rounds, key, g, f)
    ensures multiset(Map(g, RoundsByKey(rounds, keys))) == multiset(Map(f, Filter(KeyIn(keys), rounds)))
  {
    if keys == [] {
      FilterNone(KeyIn(keys), rounds);
    } else {
      var n := |keys| - 1;
      assert keys == keys[..n] + [keys[n]];
      ByKeyRegroups(rounds, keys[..n], g, f);
      assert Regroups(rounds, keys[n], g, f);
      MapAppend(g, RoundsByKey(rounds, keys[..n]), RoundsOf(rounds, keys[n]));
      OneMoreKey(rounds, keys, f);
    }
  }

  lemma OneMoreKey<B>(rounds: seq<Round<string>>, keys: seq<string>, f: Round<string> -> B)
    requires keys != [] && Distinct(keys)
    ensures var n := |keys| - 1;
            multiset(Map(f, Filter(KeyIn(keys), rounds)))
            == multiset(Map(f, Filter(KeyIn(keys[..n]), rounds))) + multiset(Map(f, Filter(OfEvent(keys[n]), rounds)))
  {
    var n := |keys| - 1;
    var a, b := Filter(KeyIn(keys[..n]), rounds), Filter(OfEvent(keys[n]), rounds);
    assert keys == keys[..n] + [keys[n]];
    assert keys[n] !in keys[..n];
    FilterUnion(KeyIn(keys[..n]), OfEvent(keys[n]), KeyIn(keys), rounds);
    assert multiset(a + b) == multiset(Filter(KeyIn(keys), rounds));
    MapPermutation(f, Filter(KeyIn(keys), rounds), a + b);
    MapAppend(f, a, b);
  }

  lemma {:induction false} EventKeysDistinct(rounds: seq<Round<string>>)
    ensures Distinct(EventKeys(rounds)) && forall r <- rounds :: r.event in EventKeys(rounds)
  {
    if rounds != [] {
      EventKeysDistinct(rounds[..|rounds| - 1]);
      assert rounds == rounds[..|rounds| - 1] + [rounds[|rounds| - 1]];
    }
  }

  lemma OrderedRegroups<B>(rounds: seq<Round<string>>, g: Round<string> -> B, f: Round<string> -> B)
    requires forall key :: Regroups(rounds, key, g, f)
    ensures multiset(Map(g, OrderedRounds(rounds))) == multiset(Map(f, rounds))
  {
    var keys := StableSort(EventKeys(rounds), StringLess);
    EventKeysDistinct(rounds);
    SortPermutes(EventKeys(rounds), StringLess);
    DistinctPermutation(EventKeys(rounds), keys);
    ByKeyRegroups(rounds, keys, g, f);
    forall r | r in rounds ensures KeyIn(keys)(r) {
      assert r.event in multiset(EventKeys(rounds));
      assert r.event in multiset(keys);
    }
    FilterAll(KeyIn(keys), rounds);
  }

  // Whatever does not look at the sequence number sees the same rounds.
  lemma OrderIgnored<B>(rounds: seq<Round<string>>, f: Round<string> -> B)
    requires forall r: Round<string>, n: int :: f(r.(order := n)) == f(r)
    ensures multiset(Map(f, OrderedRounds(rounds))) == multiset(Map(f, rounds))
  {
    forall key ensures Regroups(rounds, key, f, f) {
      var l := StableSort(Filter(OfEvent(key), rounds), Earlier());
      SortPermutes(Filter(OfEvent(key), rounds), Earlier());
      assert Map(f, NumberedFrom(l, 0)) == Map(f, l);
      MapPermutation(f, l, Filter(OfEvent(key), rounds));
    }
    OrderedRegroups(rounds, f, f);
  }

  function RoundEvent(): Round<string> -> string { (r: Round<string>) => r.event }

  function RoundKind(): Round<string> -> string { (r: Round<string>) => r.kind }

  lemma SameIds<A>(f: A -> string, a: seq<A>, b: seq<A>)
    requires multiset(Map(f, a)) == multiset(Map(f, b))
    ensures IdSet(f, a) == IdSet(f, b)
  {
    IdsWithin(f, a, b);
    IdsWithin(f, b, a);
  }

  lemma IdsWithin<A>(f: A -> string, a: seq<A>, b: seq<A>)
    requires multiset(Map(f, a)) == multiset(Map(f, b))
    ensures IdSet(f, a) <= IdSet(f, b)
  {
    forall id | id in IdSet(f, a) ensures id in IdSet(f, b) {
      var i :| 0 <= i < |a| && f(a[i]) == id;
      assert Map(f, a)[i] in multiset(Map(f, b));
      var j :| 0 <= j < |b| && Map(f, b)[j] == id;
    }
  }

  // --- No unknown reference ---

  ghost predicate OnlyRefuses<R(!new)>(put: (seq<R>, R) -> Result<seq<R>, ImportError>) {
    forall rows: seq<R>, r: R :: put(rows, r).Err? ==> put(rows, r).error == Refused
  }

  // A loop whose references all resolve can only be refused by a rule of the store, and
  // remembers every identifier.
  lemma {:induction false} FillKnows<T, R(!new)>(
    make: (T, nat) -> Result<R, ImportError>, put: (seq<R>, R) -> Result<seq<R>, ImportError>, idOf: T -> string,
    start: Filled<R>, items: seq<T>)
    requires forall i, id: nat :: 0 <= i < |items| && make(items[i], id).Err? ==> make(items[i], id).error == Refused
    requires OnlyRefuses(put)
    ensures var r := Fill(make, put, idOf, start, items);
            if r.Err? then r.error == Refused else r.value.ids.Keys == start.ids.Keys + IdSet(idOf, items)
  {
    if items != [] {
      var n := |items| - 1;
      forall i, id: nat | 0 <= i < n && make(items[..n][i], id).Err? ensures make(items[..n][i], id).error == Refused {
        assert items[..n][i] == items[i];
      }
      FillKnows(make, put, idOf, start, items[..n]);
    }
  }

  lemma TablesOnlyRefuse()
    ensures OnlyRefuses(Append<Owned<Session<nat>>>()) && OnlyRefuses(PutClub()) && OnlyRefuses(Append<Athlete<nat>>())
    ensures OnlyRefuses(PutTeam()) && OnlyRefuses(Append<Owned<Event<nat>>>()) && OnlyRefuses(PutRound())
    ensures OnlyRefuses(Append<Unit<nat>>()) && OnlyRefuses(PutEntry()) && OnlyRefuses(PutAssignment())
    ensures OnlyRefuses(PutOutcome())
  {}

  lemma PeopleKnown(st: Store, doc: Document<string>)
    requires Valid(doc)
    ensures var p := ImportPeople(st, doc);
            if p.Err? then p.error == Refused
            else p.value.athletes.ids.Keys == KnownIn(doc).athletes && p.value.teams.ids.Keys == KnownIn(doc).teams
  {
    TablesOnlyRefuse();
    FillKnows(MakeSession(st.next), Append(), SessionId(), Filled(st.sessions, map[], st.next + 1), doc.sessions);
    var sessions := Fill(MakeSession(st.next), Append(), SessionId(), Filled(st.sessions, map[], st.next + 1), doc.sessions);
    if sessions.Ok? {
      var start := Filled(st.clubs, map[], sessions.value.next);
      FillKnows(MakeClub(), PutClub(), ClubId(), start, doc.clubs);
      var clubs := Fill(MakeClub(), PutClub(), ClubId(), start, doc.clubs);
      if clubs.Ok? { AthletesAndTeamsKnown(st, doc, clubs.value); }
    }
  }

  lemma AthletesAndTeamsKnown(st: Store, doc: Document<string>, clubs: Filled<Club<nat>>)
    requires All(TeamOk(KnownIn(doc).clubs), doc.teams) && clubs.ids.Keys == KnownIn(doc).clubs
    ensures var start := Filled(st.athletes, map[], clubs.next);
            var athletes := Fill(MakeAthlete(clubs.ids), Append(), AthleteId(), start, doc.athletes);
            if athletes.Err? then athletes.error == Refused else
            && athletes.value.ids.Keys == KnownIn(doc).athletes
            && var teams := Fill(MakeTeam(clubs.ids, athletes.value.ids), PutTeam(), TeamId(),
                                 Filled(st.teams, map[], athletes.value.next), doc.teams);
               if teams.Err? then teams.error == Refused else teams.value.ids.Keys == KnownIn(doc).teams
  {
    TablesOnlyRefuse();
    var start := Filled(st.athletes, map[], clubs.next);
    FillKnows(MakeAthlete(clubs.ids), Append(), AthleteId(), start, doc.athletes);
    var athletes := Fill(MakeAthlete(clubs.ids), Append(), AthleteId(), start, doc.athletes);
    if athletes.Ok? {
      forall i, id: nat | 0 <= i < |doc.teams| ensures MakeTeam(clubs.ids, athletes.value.ids)(doc.teams[i], id).Ok? {
        assert TeamOk(KnownIn(doc).clubs)(doc.teams[i]);
      }
      FillKnows(MakeTeam(clubs.ids, athletes.value.ids), PutTeam(), TeamId(),
                Filled(st.teams, map[], athletes.value.next), doc.teams);
    }
  }

  lemma ProgrammeKnown(st: Store, doc: Document<string>, next: nat, now: int)
    requires Valid(doc)
    ensures var g := ImportProgramme(st, doc, next, now);
            if g.Err? then g.error == Refused
            else g.value.events.ids.Keys == KnownIn(doc).events && g.value.units.ids.Keys == KnownIn(doc).units
  {
    TablesOnlyRefuse();
    var start := Filled(st.events, map[], next);
    FillKnows(MakeEvent(st.next), Append(), EventId(), start, doc.events);
    var events := Fill(MakeEvent(st.next), Append(), EventId(), start, doc.events);
    if events.Ok? { RoundsAndUnitsKnown(st, doc, events.value, now); }
  }

  lemma RoundsKnown(doc: Document<string>, events: map<string, nat>, start: Filled<Round<nat>>)
    requires All(RoundOk(KnownIn(doc).events), doc.rounds) && events.Keys == KnownIn(doc).events && start.ids == map[]
    ensures var rounds := Fill(MakeRound(events), PutRound(), RoundId(), start, OrderedRounds(doc.rounds));
            if rounds.Err? then rounds.error == Refused else rounds.value.ids.Keys == KnownIn(doc).rounds
  {
    var ordered := OrderedRounds(doc.rounds);
    assert IdSet(RoundEvent(), ordered) <= events.Keys && IdSet(RoundId(), ordered) == KnownIn(doc).rounds by {
      EventsKnown(doc.rounds, events.Keys);
      OrderedIds(doc.rounds);
    }
    EachRoundKnown(ordered, events, start);
  }

  lemma OrderedIds(rounds: seq<Round<string>>)
    ensures IdSet(RoundEvent(), OrderedRounds(rounds)) == IdSet(RoundEvent(), rounds)
    ensures IdSet(RoundId(), OrderedRounds(rounds)) == IdSet(RoundId(), rounds)
  {
    OrderIgnored(rounds, RoundEvent());
    OrderIgnored(rounds, RoundId());
    SameIds(RoundEvent(), OrderedRounds(rounds), rounds);
    SameIds(RoundId(), OrderedRounds(rounds), rounds);
  }

  lemma EachRoundKnown(rounds: seq<Round<string>>, events: map<string, nat>, start: Filled<Round<nat>>)
    requires IdSet(RoundEvent(), rounds) <= events.Keys && start.ids == map[]
    ensures var filled := Fill(MakeRound(events), PutRound(), RoundId(), start, rounds);
            if filled.Err? then filled.error == Refused else filled.value.ids.Keys == IdSet(RoundId(), rounds)
  {
    TablesOnlyRefuse();
    forall i, id: nat | 0 <= i < |rounds| ensures MakeRound(events)(rounds[i], id).Ok? {
      assert RoundEvent()(rounds[i]) in IdSet(RoundEvent(), rounds);
    }
    FillKnows(MakeRound(events), PutRound(), RoundId(), start, rounds);
  }

  lemma EventsKnown(rounds: seq<Round<string>>, events: set<string>)
    requires All(RoundOk(events), rounds)
    ensures IdSet(RoundEvent(), rounds) <= events
  {
    forall id | id in IdSet(RoundEvent(), rounds) ensures id in events {
      var i :| 0 <= i < |rounds| && RoundEvent()(rounds[i]) == id;
      assert RoundOk(events)(rounds[i]);
    }
  }

  lemma RoundsAndUnitsKnown(st: Store, doc: Document<string>, events: Filled<Owned<Event<nat>>>, now: int)
    requires All(RoundOk(KnownIn(doc).events), doc.rounds) && All(UnitOk(KnownIn(doc).rounds), doc.units)
    requires events.ids.Keys == KnownIn(doc).events
    ensures var rounds := Fill(MakeRound(events.ids), PutRound(), RoundId(), Filled(st.rounds, map[], events.next),
                               OrderedRounds(doc.rounds));
            if rounds.Err? then rounds.error == Refused else
            var units := Fill(MakeUnit(rounds.value.ids, now), Append(), UnitId(),
                              Filled(st.units, map[], rounds.value.next), doc.units);
            if units.Err? then units.error == Refused else units.value.ids.Keys == KnownIn(doc).units
  {
    var start := Filled(st.rounds, map[], events.next);
    RoundsKnown(doc, events.ids, start);
    var rounds := Fill(MakeRound(events.ids), PutRound(), RoundId(), start, OrderedRounds(doc.rounds));
    if rounds.Ok? { UnitsKnown(doc, rounds.value.ids, now, Filled(st.units, map[], rounds.value.next)); }
  }

  lemma UnitsKnown(doc: Document<string>, rounds: map<string, nat>, now: int, start: Filled<Unit<nat>>)
    requires All(UnitOk(KnownIn(doc).rounds), doc.units) && rounds.Keys == KnownIn(doc).rounds && start.ids == map[]
    ensures var units := Fill(MakeUnit(rounds, now), Append(), UnitId(), start, doc.units);
            if units.Err? then units.error == Refused else units.value.ids.Keys == KnownIn(doc).units
  {
    TablesOnlyRefuse();
    forall i, id: nat | 0 <= i < |doc.units| ensures MakeUnit(rounds, now)(doc.units[i], id).Ok? {
      assert UnitOk(KnownIn(doc).rounds)(doc.units[i]);
    }
    FillKnows(MakeUnit(rounds, now), Append(), UnitId(), start, doc.units);
  }

  lemma EntriesKnown(doc: Document<string>, events: map<string, nat>, athletes: map<string, nat>,
                     teams: map<string, nat>, start: Filled<Entry<nat>>)
    requires All(EntryOk(events.Keys, athletes.Keys, teams.Keys), doc.entries) && start.ids == map[]
    ensures var entries := Fill(MakeEntry(events, athletes, teams), PutEntry(), EntryId(), start, doc.entries);
            if entries.Err? then entries.error == Refused else entries.value.ids.Keys == KnownIn(doc).entries
  {
    TablesOnlyRefuse();
    forall i, id: nat | 0 <= i < |doc.entries| ensures MakeEntry(events, athletes, teams)(doc.entries[i], id).Ok? {
      assert EntryOk(events.Keys, athletes.Keys, teams.Keys)(doc.entries[i]);
    }
    FillKnows(MakeEntry(events, athletes, teams), PutEntry(), EntryId(), start, doc.entries);
  }

  lemma RecordKnown(st: Store, doc: Document<string>, p: People, g: Programme)
    requires Valid(doc)
    requires p.athletes.ids.Keys == KnownIn(doc).athletes && p.teams.ids.Keys == KnownIn(doc).teams
    requires g.events.ids.Keys == KnownIn(doc).events && g.units.ids.Keys == KnownIn(doc).units
    ensures ImportRecord(st, doc, p, g).Err? ==> ImportRecord(st, doc, p, g).error == Refused
  {
    var start := Filled(st.entries, map[], g.units.next);
    EntriesKnown(doc, g.events.ids, p.athletes.ids, p.teams.ids, start);
    var entries := Fill(MakeEntry(g.events.ids, p.athletes.ids, p.teams.ids), PutEntry(), EntryId(), start, doc.entries);
    if entries.Ok? { PlacingsKnown(st, doc, p, g, entries.value); }
  }

  lemma PlacingsKnown(st: Store, doc: Document<string>, p: People, g: Programme, entries: Filled<Entry<nat>>)
    requires All(AssignmentOk(KnownIn(doc).units, KnownIn(doc).entries), doc.assignments)
    requires All(OutcomeOk(KnownIn(doc).units, KnownIn(doc).athletes), doc.results)
    requires p.athletes.ids.Keys == KnownIn(doc).athletes && g.units.ids.Keys == KnownIn(doc).units
    requires entries.ids.Keys == KnownIn(doc).entries
    ensures var assignments := Fill(MakeAssignment(g.units.ids, entries.ids), PutAssignment(), AssignmentId(),
                                    Filled(st.assignments, map[], entries.next), doc.assignments);
            if assignments.Err? then assignments.error == Refused else
            var results := Fill(MakeOutcome(g.units.ids, p.athletes.ids), PutOutcome(), OutcomeId(),
                                Filled(st.results, map[], assignments.value.next), doc.results);
            results.Err? ==> results.error == Refused
  {
    TablesOnlyRefuse();
    var k := KnownIn(doc);
    forall i, id: nat | 0 <= i < |doc.assignments|
      ensures MakeAssignment(g.units.ids, entries.ids)(doc.assignments[i], id) != Err(UnknownReference)
    {
      assert AssignmentOk(k.units, k.entries)(doc.assignments[i]);
    }
    forall i, id: nat | 0 <= i < |doc.results|
      ensures MakeOutcome(g.units.ids, p.athletes.ids)(doc.results[i], id) != Err(UnknownReference)
    {
      assert OutcomeOk(k.units, k.athletes)(doc.results[i]);
    }
    var start := Filled(st.assignments, map[], entries.next);
    FillKnows(MakeAssignment(g.units.ids, entries.ids), PutAssignment(), AssignmentId(), start, doc.assignments);
    var assignments := Fill(MakeAssignment(g.units.ids, entries.ids), PutAssignment(), AssignmentId(), start, doc.assignments);
    if assignments.Ok? {
      FillKnows(MakeOutcome(g.units.ids, p.athletes.ids), PutOutcome(), OutcomeId(),
                Filled(st.results, map[], assignments.value.next), doc.results);
    }
  }

  // A document validation accepts reaches no "unknown reference" branch of the import: all
  // that can still stop it is a rule of the store, on one entity or on keys.
  lemma NoUnknownReference(st: Store, doc: Document<string>, now: int)
    requires Valid(doc)
    ensures Import(st, doc, now).Err? ==> Import(st, doc, now).error == Refused
  {
    PeopleKnown(st, doc);
    var p := ImportPeople(st, doc);
    if p.Ok? && HeaderStorable(doc.header) {
      ProgrammeKnown(st, doc, p.value.teams.next, now);
      var g := ImportProgramme(st, doc, p.value.teams.next, now);
      if g.Ok? { RecordKnown(st, doc, p.value, g.value); }
      LastPart(st, doc, now, p.value);
    }
  }

  // Once the people are in, the import fails as the programme or the record does.
  lemma LastPart(st: Store, doc: Document<string>, now: int, p: People)
    requires Valid(doc) && HeaderStorable(doc.header) && ImportPeople(st, doc) == Ok(p)
    ensures var g := ImportProgramme(st, doc, p.teams.next, now);
            Import(st, doc, now).Err? ==>
              (g.Err? && Import(st, doc, now).error == g.error)
              || (g.Ok? && ImportRecord(st, doc, p, g.value).Err?
                  && Import(st, doc, now).error == ImportRecord(st, doc, p, g.value).error)
  {}
}
