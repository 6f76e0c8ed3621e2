// Exporting the meet an import has just created gives the document back under new
// identifiers, and exactly what gets lost on the way.
module OmxRoundTrip {
  import opened Basics
  import opened Sorting
  import opened Omx
  import opened OmxCopies
  import opened OmxImported
  import I = OmxImport

  // --- Selecting the new rows ---

  lemma SelectNew<R(!new)>(p: R -> bool, older: seq<R>, added: seq<R>)
    requires (forall x <- older :: !p(x)) && (forall x <- added :: p(x))
    ensures Filter(p, older + added) == added
  {
    FilterAppend(p, older, added);
    FilterNone(p, older);
    FilterAll(p, added);
  }

  lemma SelectSome<T(!new), R(!new)>(p: R -> bool, q: T -> bool, copy: T -> R, older: seq<R>, items: seq<T>)
    requires (forall x <- older :: !p(x)) && (forall x <- items :: q(x) == p(copy(x)))
    ensures Filter(p, older + Map(copy, items)) == Map(copy, Filter(q, items))
  {
    FilterAppend(p, older, Map(copy, items));
    FilterNone(p, older);
    FilterMap(p, q, copy, items);
  }

  lemma Mapped<T, R>(copy: T -> R, items: seq<T>, y: R) returns (x: T)
    requires y in Map(copy, items)
    ensures x in items && y == copy(x)
  {
    var i :| 0 <= i < |items| && Map(copy, items)[i] == y;
    x := items[i];
  }

  lemma Maps<T, R>(copy: T -> R, items: seq<T>, x: T)
    requires x in items
    ensures copy(x) in Map(copy, items)
  {
    var i :| 0 <= i < |items| && items[i] == x;
    assert Map(copy, items)[i] == copy(x);
  }

  // An identifier the document knows belongs to one of its entities.
  lemma Owner<T>(idOf: T -> string, items: seq<T>, id: string) returns (x: T)
    requires id in IdSet(idOf, items)
    ensures x in items && idOf(x) == id
  {
    var i :| 0 <= i < |items| && idOf(items[i]) == id;
    x := items[i];
  }

  lemma InIdSet<T>(idOf: T -> string, items: seq<T>, x: T)
    requires x in items
    ensures idOf(x) in IdSet(idOf, items)
  {
    var i :| 0 <= i < |items| && items[i] == x;
  }

  // --- A round keeps its place ---

  function BeforeRound(r: Round<string>): Round<string> -> bool {
    (x: Round<string>) => x.event == r.event && x.order < r.order
  }

  lemma {:induction false} CountMapped<A, B>(p: B -> bool, q: A -> bool, f: A -> B, s: seq<A>)
    requires forall x <- s :: q(x) == p(f(x))
    ensures Count(p, Map(f, s)) == Count(q, s)
  {
    if s != [] {
      CountMapped(p, q, f, s[1..]);
      assert Map(f, s)[1..] == Map(f, s[1..]);
    }
  }

  lemma {:induction false} CountNone<T>(p: T -> bool, s: seq<T>)
    requires forall x <- s :: !p(x)
    ensures Count(p, s) == 0
  {
    if s != [] { CountNone(p, s[1..]); }
  }

  lemma RoundsOfEvent(rounds: seq<Round<string>>, key: string)
    ensures forall i :: 0 <= i < |RoundsOf(rounds, key)| ==>
              RoundsOf(rounds, key)[i].event == key && RoundsOf(rounds, key)[i].order == i
  {
    var l := StableSort(Filter(OfEvent(key), rounds), Earlier());
    SortMembers(Filter(OfEvent(key), rounds), Earlier());
    forall i | 0 <= i < |l| ensures l[i].event == key {
      assert l[i] in l && OfEvent(key)(l[i]);
    }
  }

  // Among the rounds laid out event by event, exactly order rounds of its event come before one.
  lemma {:induction false} PlaceByKey(rounds: seq<Round<string>>, keys: seq<string>, r: Round<string>)
    requires Distinct(keys) && r in RoundsByKey(rounds, keys)
    ensures r.event in keys && Count(BeforeRound(r), RoundsByKey(rounds, keys)) == r.order
  {
    var n := |keys| - 1;
    var before, block := RoundsByKey(rounds, keys[..n]), RoundsOf(rounds, keys[n]);
    LastKeyNew(keys);
    RoundsOfEvent(rounds, keys[n]);
    CountAppend(BeforeRound(r), before, block);
    assert r in before || r in block;
    if r in before {
      PlaceByKey(rounds, keys[..n], r);
      NoneOfAnother(r, block, keys[n]);
    } else {
      KeysOf(rounds, keys[..n]);
      CountNone(BeforeRound(r), before);
      PlaceInBlock(r, block);
    }
  }

  lemma LastKeyNew(keys: seq<string>)
    requires Distinct(keys) && keys != []
    ensures var n := |keys| - 1;
            Distinct(keys[..n]) && keys[n] !in keys[..n] && keys == keys[..n] + [keys[n]]
  {}

  lemma NoneOfAnother(r: Round<string>, block: seq<Round<string>>, event: string)
    requires r.event != event && forall x <- block :: x.event == event
    ensures Count(BeforeRound(r), block) == 0
  {
    CountNone(BeforeRound(r), block);
  }

  lemma PlaceInBlock(r: Round<string>, block: seq<Round<string>>)
    requires r in block && forall i :: 0 <= i < |block| ==> block[i].event == r.event && block[i].order == i
    ensures Count(BeforeRound(r), block) == r.order
  {
    var i :| 0 <= i < |block| && block[i] == r;
    CountPrefix(BeforeRound(r), block, i);
  }

  lemma {:induction false} KeysOf(rounds: seq<Round<string>>, keys: seq<string>)
    ensures forall r <- RoundsByKey(rounds, keys) :: r.event in keys
  {
    if keys != [] {
      var n := |keys| - 1;
      KeysOf(rounds, keys[..n]);
      RoundsOfEvent(rounds, keys[n]);
      assert keys == keys[..n] + [keys[n]];
      forall r | r in RoundsOf(rounds, keys[n]) ensures r.event == keys[n] {
        var i :| 0 <= i < |RoundsOf(rounds, keys[n])| && RoundsOf(rounds, keys[n])[i] == r;
      }
    }
  }

  lemma PlaceKept(rounds: seq<Round<string>>, r: Round<string>)
    requires r in OrderedRounds(rounds)
    ensures Count(BeforeRound(r), OrderedRounds(rounds)) == r.order
  {
    I.EventKeysDistinct(rounds);
    SortPermutes(EventKeys(rounds), StringLess);
    DistinctPermutation(EventKeys(rounds), StableSort(EventKeys(rounds), StringLess));
    PlaceByKey(rounds, StableSort(EventKeys(rounds), StringLess), r);
  }

  // Numbering the copied rounds anew changes nothing.
  lemma RenumberingCopies(ids: map<string, nat>, events: map<string, nat>, rounds: seq<Round<string>>)
    requires Injective(events) && forall r <- OrderedRounds(rounds) :: r.event in events
    ensures var copies := Map(CopyRound(ids, events), OrderedRounds(rounds));
            Map(Renumbered(copies), copies) == copies
  {
    var ordered := OrderedRounds(rounds);
    var copies := Map(CopyRound(ids, events), ordered);
    forall i | 0 <= i < |ordered| ensures Renumbered(copies)(copies[i]) == copies[i] {
      var r := ordered[i];
      forall x | x in ordered ensures BeforeRound(r)(x) == Before(copies[i])(CopyRound(ids, events)(x)) {
        assert x.event in events && r.event in events;
      }
      CountMapped(Before(copies[i]), BeforeRound(r), CopyRound(ids, events), ordered);
      PlaceKept(rounds, r);
    }
  }

  // Each round of the document under its number within its event: the rounds of the same
  // event with a smaller sequence number.
  function Renumber(rounds: seq<Round<string>>): Round<string> -> Round<string> {
    (r: Round<string>) => r.(order := Count(BeforeRound(r), rounds))
  }

  ghost predicate DistinctOrders(rounds: seq<Round<string>>) {
    forall i, j :: 0 <= i < j < |rounds| && rounds[i].event == rounds[j].event ==> rounds[i].order != rounds[j].order
  }

  // With distinct sequence numbers the ordered rounds are the document's, numbered anew.
  lemma RoundsRenumbered(rounds: seq<Round<string>>)
    requires DistinctOrders(rounds)
    ensures multiset(OrderedRounds(rounds)) == multiset(Map(Renumber(rounds), rounds))
  {
    var same := (r: Round<string>) => r;
    forall key ensures I.Regroups(rounds, key, same, Renumber(rounds)) {
      EventRenumbered(rounds, key);
      assert Map(same, RoundsOf(rounds, key)) == RoundsOf(rounds, key);
    }
    I.OrderedRegroups(rounds, same, Renumber(rounds));
    assert Map(same, OrderedRounds(rounds)) == OrderedRounds(rounds);
  }

  function OrderOf(): Round<string> -> int { (r: Round<string>) => r.order }

  lemma {:induction false} OrdersDistinct(rounds: seq<Round<string>>, key: string)
    requires DistinctOrders(rounds)
    ensures Distinct(Map(OrderOf(), Filter(OfEvent(key), rounds)))
  {
    if rounds != [] {
      var rest := Filter(OfEvent(key), rounds[1..]);
      OrdersDistinct(rounds[1..], key);
      if OfEvent(key)(rounds[0]) {
        assert Filter(OfEvent(key), rounds) == [rounds[0]] + rest;
        forall i | 0 <= i < |rest| ensures rest[i].order != rounds[0].order {
          assert rest[i] in rest && rest[i] in rounds[1..] && OfEvent(key)(rest[i]);
          var j :| 0 < j < |rounds| && rounds[j] == rest[i];
        }
      }
    }
  }

  lemma SortedPosition(l: seq<Round<string>>, key: string, i: nat)
    requires Ordered(l, Earlier()) && Distinct(Map(OrderOf(), l)) && i < |l| && forall r <- l :: r.event == key
    ensures Count(BeforeRound(l[i]), l) == i
  {
    forall j | 0 <= j < |l| ensures BeforeRound(l[i])(l[j]) <==> j < i {
      assert l[j] in l && l[i] in l;
      if j < i {
        assert !Earlier()(l[i], l[j]) && Map(OrderOf(), l)[j] != Map(OrderOf(), l)[i];
      } else if i < j {
        assert !Earlier()(l[j], l[i]);
      }
    }
    CountPrefix(BeforeRound(l[i]), l, i);
  }

  lemma {:induction false} CountWithin<T(!new)>(p: T -> bool, q: T -> bool, s: seq<T>)
    requires forall x <- s :: p(x) ==> q(x)
    ensures Count(p, Filter(q, s)) == Count(p, s)
  {
    if s != [] {
      assert p(s[0]) ==> q(s[0]);
      CountWithin(p, q, s[1..]);
      CountAppend(p, if q(s[0]) then [s[0]] else [], Filter(q, s[1..]));
    }
  }

  lemma EventRenumbered(rounds: seq<Round<string>>, key: string)
    requires DistinctOrders(rounds)
    ensures multiset(RoundsOf(rounds, key)) == multiset(Map(Renumber(rounds), Filter(OfEvent(key), rounds)))
  {
    var mine := Filter(OfEvent(key), rounds);
    var l := StableSort(mine, Earlier());
    SortPermutes(mine, Earlier());
    SortOrders(mine, Earlier());
    OrdersDistinct(rounds, key);
    MapPermutation(OrderOf(), mine, l);
    DistinctPermutation(Map(OrderOf(), mine), Map(OrderOf(), l));
    SortMembers(mine, Earlier());
    forall i | 0 <= i < |l| ensures RoundsOf(rounds, key)[i] == Map(Renumber(rounds), l)[i] {
      assert l[i] in mine && OfEvent(key)(l[i]);
      SortedPosition(l, key, i);
      CountPermutation(BeforeRound(l[i]), l, mine);
      CountWithin(BeforeRound(l[i]), OfEvent(key), rounds);
    }
    assert RoundsOf(rounds, key) == Map(Renumber(rounds), l);
    MapPermutation(Renumber(rounds), l, mine);
  }

  // --- The programme of the new meet ---

  lemma MapTwice<T, R, S>(f: T -> R, g: R -> S, h: T -> S, items: seq<T>)
    requires forall x <- items :: g(f(x)) == h(x)
    ensures Map(g, Map(f, items)) == Map(h, items)
  {
    forall i | 0 <= i < |items| ensures Map(g, Map(f, items))[i] == Map(h, items)[i] {
      assert items[i] in items;
    }
  }

  lemma SessionsExported(older: seq<Owned<Session<nat>>>, ids: map<string, nat>, items: seq<Session<string>>, meet: nat)
    requires forall o <- older :: o.meet < meet
    ensures Map(RowIn<Session<nat>>(), Filter(MeetOf(meet), older + Map(CopySession(ids, meet), items)))
         == Map(SessionRow(ids), items)
  {
    var copies := Map(CopySession(ids, meet), items);
    forall x | x in copies ensures MeetOf(meet)(x) { var y := Mapped(CopySession(ids, meet), items, x); }
    SelectNew(MeetOf(meet), older, copies);
    MapTwice(CopySession(ids, meet), RowIn<Session<nat>>(), SessionRow(ids), items);
  }

  lemma EventsExported(older: seq<Owned<Event<nat>>>, ids: map<string, nat>, items: seq<Event<string>>, meet: nat)
    requires forall o <- older :: o.meet < meet
    ensures Map(RowIn<Event<nat>>(), Filter(MeetOf(meet), older + Map(CopyEvent(ids, meet), items)))
         == Map(EventRow(ids), items)
  {
    var copies := Map(CopyEvent(ids, meet), items);
    forall x | x in copies ensures MeetOf(meet)(x) { var y := Mapped(CopyEvent(ids, meet), items, x); }
    SelectNew(MeetOf(meet), older, copies);
    MapTwice(CopyEvent(ids, meet), RowIn<Event<nat>>(), EventRow(ids), items);
  }

  // The identifiers of the copies are the ones handed out.
  lemma EventIds(ids: map<string, nat>, items: seq<Event<string>>)
    requires ids.Keys == IdSet(EventId(), items)
    ensures (set e <- Map(EventRow(ids), items) :: e.id) == ids.Values
  {
    var rows := Map(EventRow(ids), items);
    forall id ensures id in (set e <- rows :: e.id) <==> id in ids.Values {
      if id in (set e <- rows :: e.id) {
        var e :| e in rows && e.id == id;
        var x := Mapped(EventRow(ids), items, e);
        InIdSet(EventId(), items, x);
      }
      if id in ids.Values {
        var key :| key in ids && ids[key] == id;
        var x := Owner(EventId(), items, key);
        Maps(EventRow(ids), items, x);
      }
    }
  }

  lemma RoundIds(ids: map<string, nat>, events: map<string, nat>, items: seq<Round<string>>)
    requires ids.Keys == IdSet(RoundId(), items)
    ensures (set r <- Map(CopyRound(ids, events), items) :: r.id) == ids.Values
  {
    var rows := Map(CopyRound(ids, events), items);
    forall id ensures id in (set r <- rows :: r.id) <==> id in ids.Values {
      if id in (set r <- rows :: r.id) {
        var r :| r in rows && r.id == id;
        var x := Mapped(CopyRound(ids, events), items, r);
        InIdSet(RoundId(), items, x);
      }
      if id in ids.Values {
        var key :| key in ids && ids[key] == id;
        var x := Owner(RoundId(), items, key);
        Maps(CopyRound(ids, events), items, x);
      }
    }
  }

  lemma UnitIds(ids: map<string, nat>, rounds: map<string, nat>, now: int, items: seq<Unit<string>>)
    requires ids.Keys == IdSet(UnitId(), items)
    ensures (set u <- Map(CopyUnit(ids, rounds, now), items) :: u.id) == ids.Values
  {
    var rows := Map(CopyUnit(ids, rounds, now), items);
    forall id ensures id in (set u <- rows :: u.id) <==> id in ids.Values {
      if id in (set u <- rows :: u.id) {
        var u :| u in rows && u.id == id;
        var x := Mapped(CopyUnit(ids, rounds, now), items, u);
        InIdSet(UnitId(), items, x);
      }
      if id in ids.Values {
        var key :| key in ids && ids[key] == id;
        var x := Owner(UnitId(), items, key);
        Maps(CopyUnit(ids, rounds, now), items, x);
      }
    }
  }

  lemma RoundsExported(older: seq<Round<nat>>, ids: map<string, nat>, events: map<string, nat>,
                       items: seq<Round<string>>, floor: nat)
    requires Younger(events, floor) && (forall r <- older :: r.event < floor) && forall r <- items :: r.event in events
    ensures Filter(RoundWithin(events.Values), older + Map(CopyRound(ids, events), items))
         == Map(CopyRound(ids, events), items)
  {
    forall x | x in Map(CopyRound(ids, events), items) ensures RoundWithin(events.Values)(x) {
      var r := Mapped(CopyRound(ids, events), items, x);
      assert events[r.event] in events.Values;
    }
    SelectNew(RoundWithin(events.Values), older, Map(CopyRound(ids, events), items));
  }

  lemma UnitsExported(older: seq<Unit<nat>>, ids: map<string, nat>, rounds: map<string, nat>, now: int,
                      items: seq<Unit<string>>, floor: nat)
    requires Younger(rounds, floor) && (forall u <- older :: u.round < floor) && All(UnitOk(rounds.Keys), items)
    ensures Filter(UnitWithin(rounds.Values), older + Map(CopyUnit(ids, rounds, now), items))
         == Map(CopyUnit(ids, rounds, now), items)
  {
    var copies := Map(CopyUnit(ids, rounds, now), items);
    forall x | x in copies ensures UnitWithin(rounds.Values)(x) {
      var i :| 0 <= i < |items| && copies[i] == x;
      assert UnitOk(rounds.Keys)(items[i]);
      assert rounds[items[i].round] in rounds.Values;
    }
    SelectNew(UnitWithin(rounds.Values), older, copies);
  }

  lemma EntriesExported(older: seq<Entry<nat>>, ids: map<string, nat>, events: map<string, nat>,
                        athletes: map<string, nat>, teams: map<string, nat>, items: seq<Entry<string>>, floor: nat)
    requires Younger(events, floor) && (forall e <- older :: e.event < floor) && forall e <- items :: e.event in events
    ensures Filter(EntryWithin(events.Values), older + Map(CopyEntry(ids, events, athletes, teams), items))
         == Map(CopyEntry(ids, events, athletes, teams), items)
  {
    var copies := Map(CopyEntry(ids, events, athletes, teams), items);
    forall x | x in copies ensures EntryWithin(events.Values)(x) {
      var e := Mapped(CopyEntry(ids, events, athletes, teams), items, x);
      assert events[e.event] in events.Values;
    }
    SelectNew(EntryWithin(events.Values), older, copies);
  }

  lemma AssignmentsExported(older: seq<Assignment<nat>>, ids: map<string, nat>, units: map<string, nat>,
                            entries: map<string, nat>, items: seq<Assignment<string>>, floor: nat)
    requires Younger(units, floor) && (forall a <- older :: a.unit < floor) && forall a <- items :: a.unit in units
    ensures Filter(AssignmentWithin(units.Values), older + Map(CopyAssignment(ids, units, entries), items))
         == Map(CopyAssignment(ids, units, entries), items)
  {
    var copies := Map(CopyAssignment(ids, units, entries), items);
    forall x | x in copies ensures AssignmentWithin(units.Values)(x) {
      var a := Mapped(CopyAssignment(ids, units, entries), items, x);
      assert units[a.unit] in units.Values;
    }
    SelectNew(AssignmentWithin(units.Values), older, copies);
  }

  lemma OutcomesExported(older: seq<Outcome<nat>>, ids: map<string, nat>, units: map<string, nat>,
                         athletes: map<string, nat>, items: seq<Outcome<string>>, floor: nat)
    requires Younger(units, floor) && (forall r <- older :: r.unit < floor) && forall r <- items :: r.unit in units
    ensures Filter(OutcomeWithin(units.Values), older + Map(CopyOutcome(ids, units, athletes), items))
         == Map(CopyOutcome(ids, units, athletes), items)
  {
    var copies := Map(CopyOutcome(ids, units, athletes), items);
    forall x | x in copies ensures OutcomeWithin(units.Values)(x) {
      var r := Mapped(CopyOutcome(ids, units, athletes), items, x);
      assert units[r.unit] in units.Values;
    }
    SelectNew(OutcomeWithin(units.Values), older, copies);
  }

  // The programme and record of the document under new identifiers.
  function ProgrammeOf(doc: Document<string>, m: Ids, now: int, meet: nat): Document<nat> {
    Document(OMX_V1, meet, NO_HEADER, Map(SessionRow(m.sessions), doc.sessions), [], [], [],
             Map(EventRow(m.events), doc.events), Map(CopyRound(m.rounds, m.events), OrderedRounds(doc.rounds)),
             Map(CopyUnit(m.units, m.rounds, now), doc.units),
             Map(CopyEntry(m.entries, m.events, m.athletes, m.teams), doc.entries),
             Map(CopyAssignment(m.assignments, m.units, m.entries), doc.assignments),
             Map(CopyOutcome(m.results, m.units, m.athletes), doc.results))
  }

  // What the references of a valid document say entity by entity.
  ghost predicate Resolved(doc: Document<string>, k: Known) {
    && (forall r <- OrderedRounds(doc.rounds) :: r.event in k.events)
    && (forall e <- doc.entries :: e.event in k.events && (e.athlete.Some? ==> e.athlete.value in k.athletes)
                                  && (e.team.Some? ==> e.team.value in k.teams))
    && (forall a <- doc.assignments :: a.unit in k.units)
    && (forall r <- doc.results :: r.unit in k.units && r.athlete in k.athletes)
    && (forall t <- doc.teams :: t.club in k.clubs)
  }

  lemma ValidResolves(doc: Document<string>)
    requires Valid(doc)
    ensures Resolved(doc, KnownIn(doc))
  {
    var k := KnownIn(doc);
    forall r | r in OrderedRounds(doc.rounds) ensures r.event in k.events {
      OrderedEvents(doc.rounds, k.events);
      assert I.RoundEvent()(r) in k.events;
    }
    AllMembers(EntryOk(k.events, k.athletes, k.teams), doc.entries);
    AllMembers(AssignmentOk(k.units, k.entries), doc.assignments);
    AllMembers(OutcomeOk(k.units, k.athletes), doc.results);
    AllMembers(TeamOk(k.clubs), doc.teams);
    assert forall e <- doc.entries :: EntryOk(k.events, k.athletes, k.teams)(e);
    assert forall a <- doc.assignments :: AssignmentOk(k.units, k.entries)(a);
    assert forall r <- doc.results :: OutcomeOk(k.units, k.athletes)(r);
    assert forall t <- doc.teams :: TeamOk(k.clubs)(t);
  }

  lemma AllMembers<T>(ok: T -> bool, items: seq<T>)
    requires All(ok, items)
    ensures forall x <- items :: ok(x)
  {}

  lemma ProgrammeExported(st: Store, doc: Document<string>, m: Ids, now: int, after: Store)
    requires Closed(st) && Renames(m, KnownIn(doc), st.next) && Resolved(doc, KnownIn(doc))
    requires All(UnitOk(KnownIn(doc).rounds), doc.units)
    requires after.sessions == st.sessions + Map(CopySession(m.sessions, st.next), doc.sessions)
    requires after.events == st.events + Map(CopyEvent(m.events, st.next), doc.events)
    requires after.rounds == st.rounds + Map(CopyRound(m.rounds, m.events), OrderedRounds(doc.rounds))
    requires after.units == st.units + Map(CopyUnit(m.units, m.rounds, now), doc.units)
    requires after.entries == st.entries + Map(CopyEntry(m.entries, m.events, m.athletes, m.teams), doc.entries)
    requires after.assignments == st.assignments + Map(CopyAssignment(m.assignments, m.units, m.entries), doc.assignments)
    requires after.results == st.results + Map(CopyOutcome(m.results, m.units, m.athletes), doc.results)
    ensures ExportProgramme(after, st.next) == ProgrammeOf(doc, m, now, st.next)
  {
    SessionsExported(st.sessions, m.sessions, doc.sessions, st.next);
    EventsExported(st.events, m.events, doc.events, st.next);
    EventIds(m.events, doc.events);
    RoundsExported(st.rounds, m.rounds, m.events, OrderedRounds(doc.rounds), st.next);
    RenumberingCopies(m.rounds, m.events, doc.rounds);
    OrderedRoundIds(doc.rounds);
    RoundIds(m.rounds, m.events, OrderedRounds(doc.rounds));
    UnitsExported(st.units, m.units, m.rounds, now, doc.units, st.next);
    UnitIds(m.units, m.rounds, now, doc.units);
    EntriesExported(st.entries, m.entries, m.events, m.athletes, m.teams, doc.entries, st.next);
    AssignmentsExported(st.assignments, m.assignments, m.units, m.entries, doc.assignments, st.next);
    OutcomesExported(st.results, m.results, m.units, m.athletes, doc.results, st.next);
  }

  // --- The people of the new meet ---

  lemma EntryAthletes(m: Ids, entries: seq<Entry<string>>)
    requires forall e <- entries :: e.athlete.Some? ==> e.athlete.value in m.athletes
    ensures (set e <- Map(CopyEntry(m.entries, m.events, m.athletes, m.teams), entries) | e.athlete.Some? :: e.athlete.value)
            <= m.athletes.Values
  {
    var copy := CopyEntry(m.entries, m.events, m.athletes, m.teams);
    forall e: Entry<nat> | e in Map(copy, entries) && e.athlete.Some? ensures e.athlete.value in m.athletes.Values {
      var x := Mapped(copy, entries, e);
      assert m.athletes[x.athlete.value] in m.athletes.Values;
    }
  }

  lemma ResultAthletes(m: Ids, results: seq<Outcome<string>>)
    requires forall r <- results :: r.athlete in m.athletes
    ensures (set r <- Map(CopyOutcome(m.results, m.units, m.athletes), results) :: r.athlete) <= m.athletes.Values
  {
    var copy := CopyOutcome(m.results, m.units, m.athletes);
    forall r: Outcome<nat> | r in Map(copy, results) ensures r.athlete in m.athletes.Values {
      var x := Mapped(copy, results, r);
      assert m.athletes[x.athlete] in m.athletes.Values;
    }
  }

  // Exactly the imported athletes are named: each is a participant, and entries and results
  // name nobody else.
  lemma AthletesNamedExactly(st: Store, doc: Document<string>, m: Ids, now: int, after: Store)
    requires (forall p <- st.participants :: p.0 < st.next) && m.athletes.Keys == IdSet(AthleteId(), doc.athletes)
    requires forall e <- doc.entries :: e.athlete.Some? ==> e.athlete.value in m.athletes
    requires forall r <- doc.results :: r.athlete in m.athletes
    requires after.participants
          == st.participants + Map(Registered(st.next), Map(CopyAthlete(m.athletes, m.clubs), doc.athletes))
    ensures AthletesNamed(after, st.next, ProgrammeOf(doc, m, now, st.next)) == m.athletes.Values
  {
    ParticipantsAre(st.participants, m.athletes, m.clubs, doc.athletes, st.next);
    EntryAthletes(m, doc.entries);
    ResultAthletes(m, doc.results);
  }

  lemma ParticipantsAre(older: seq<(nat, nat)>, ids: map<string, nat>, clubs: map<string, nat>,
                        items: seq<Athlete<string>>, meet: nat)
    requires (forall p <- older :: p.0 < meet) && ids.Keys == IdSet(AthleteId(), items)
    ensures (set p <- older + Map(Registered(meet), Map(CopyAthlete(ids, clubs), items)) | p.0 == meet :: p.1) == ids.Values
  {
    var copies := Map(CopyAthlete(ids, clubs), items);
    var all := older + Map(Registered(meet), copies);
    forall id ensures id in (set p <- all | p.0 == meet :: p.1) <==> id in ids.Values {
      if id in (set p <- all | p.0 == meet :: p.1) {
        var p :| p in all && p.0 == meet && p.1 == id;
        var a := Mapped(Registered(meet), copies, p);
        var x := Mapped(CopyAthlete(ids, clubs), items, a);
        InIdSet(AthleteId(), items, x);
      }
      if id in ids.Values {
        var key :| key in ids && ids[key] == id;
        var x := Owner(AthleteId(), items, key);
        Maps(CopyAthlete(ids, clubs), items, x);
        Maps(Registered(meet), copies, CopyAthlete(ids, clubs)(x));
        assert (meet, id) in all;
      }
    }
  }

  lemma AthletesExported(older: seq<Athlete<nat>>, ids: map<string, nat>, clubs: map<string, nat>,
                         items: seq<Athlete<string>>, floor: nat)
    requires Issues(ids, IdSet(AthleteId(), items), floor) && forall a <- older :: a.id < floor
    ensures Filter(AthleteWithin(ids.Values), older + Map(CopyAthlete(ids, clubs), items)) == Map(CopyAthlete(ids, clubs), items)
    ensures ids.Values <= set a <- Map(CopyAthlete(ids, clubs), items) :: a.id
  {
    var copies := Map(CopyAthlete(ids, clubs), items);
    forall a | a in copies ensures AthleteWithin(ids.Values)(a) {
      var x := Mapped(CopyAthlete(ids, clubs), items, a);
      InIdSet(AthleteId(), items, x);
      assert ids[x.id] in ids.Values;
    }
    SelectNew(AthleteWithin(ids.Values), older, copies);
    forall id | id in ids.Values ensures id in set a <- copies :: a.id {
      var key :| key in ids && ids[key] == id;
      var x := Owner(AthleteId(), items, key);
      Maps(CopyAthlete(ids, clubs), items, x);
    }
  }

  // A team somebody's entry names.
  function TeamUsed(entries: seq<Entry<string>>): Team<string> -> bool {
    (t: Team<string>) => t.id in TeamsNamed(entries)
  }

  lemma TeamsNamedAre(m: Ids, entries: seq<Entry<string>>, id: string)
    requires Injective(m.teams) && id in m.teams && forall e <- entries :: e.team.Some? ==> e.team.value in m.teams
    ensures m.teams[id] in TeamsNamed(Map(CopyEntry(m.entries, m.events, m.athletes, m.teams), entries))
            <==> id in TeamsNamed(entries)
  {
    var copy := CopyEntry(m.entries, m.events, m.athletes, m.teams);
    if id in TeamsNamed(entries) {
      var e :| e in entries && e.team == Some(id);
      Maps(copy, entries, e);
    }
    if m.teams[id] in TeamsNamed(Map(copy, entries)) {
      var y: Entry<nat> :| y in Map(copy, entries) && y.team == Some(m.teams[id]);
      var e := Mapped(copy, entries, y);
    }
  }

  lemma TeamsExported(older: seq<Team<nat>>, m: Ids, items: seq<Team<string>>, entries: seq<Entry<string>>, floor: nat)
    requires Issues(m.teams, IdSet(TeamId(), items), floor) && forall t <- older :: t.id < floor
    requires forall e <- entries :: e.team.Some? ==> e.team.value in m.teams
    ensures var named := TeamsNamed(Map(CopyEntry(m.entries, m.events, m.athletes, m.teams), entries));
            var copies := Map(CopyTeam(m.teams, m.clubs, m.athletes), Filter(TeamUsed(entries), items));
            && Filter(TeamWithin(named), older + Map(CopyTeam(m.teams, m.clubs, m.athletes), items)) == copies
            && named <= set t <- copies :: t.id
  {
    var copyEntry, copy := CopyEntry(m.entries, m.events, m.athletes, m.teams), CopyTeam(m.teams, m.clubs, m.athletes);
    var named := TeamsNamed(Map(copyEntry, entries));
    var copies: seq<Team<nat>> := Map(copy, Filter(TeamUsed(entries), items));
    forall id | id in named ensures floor <= id && id in set t <- copies :: t.id {
      var y: Entry<nat> :| y in Map(copyEntry, entries) && y.team == Some(id);
      var e := Mapped(copyEntry, entries, y);
      var x := Owner(TeamId(), items, e.team.value);
      assert TeamUsed(entries)(x) && x in Filter(TeamUsed(entries), items);
      Maps(copy, Filter(TeamUsed(entries), items), x);
    }
    forall t | t in items ensures TeamUsed(entries)(t) == TeamWithin(named)(copy(t)) {
      InIdSet(TeamId(), items, t);
      TeamsNamedAre(m, entries, t.id);
    }
    SelectSome(TeamWithin(named), TeamUsed(entries), copy, older, items);
  }

  // A club an athlete or a team lists.
  function ClubUsed(athletes: seq<Athlete<string>>, teams: seq<Team<string>>): Club<string> -> bool {
    (c: Club<string>) => c.id in ClubsNamed(athletes, teams)
  }

  lemma AthleteClubs(m: Ids, athletes: seq<Athlete<string>>, id: string)
    requires Injective(m.clubs) && id in m.clubs
    ensures m.clubs[id] in (set a <- Map(CopyAthlete(m.athletes, m.clubs), athletes), c <- a.clubs :: c)
            <==> id in (set a <- athletes, c <- a.clubs :: c)
  {
    var copy := CopyAthlete(m.athletes, m.clubs);
    if id in (set a <- athletes, c <- a.clubs :: c) {
      var a :| a in athletes && id in a.clubs;
      Maps(copy, athletes, a);
      assert m.clubs[id] in copy(a).clubs;
    }
    var copies: seq<Athlete<nat>> := Map(copy, athletes);
    if m.clubs[id] in (set a <- copies, c <- a.clubs :: c) {
      var y: Athlete<nat> :| y in Map(copy, athletes) && m.clubs[id] in y.clubs;
      var a := Mapped(copy, athletes, y);
      var key :| key in a.clubs && key in m.clubs && m.clubs[key] == m.clubs[id];
      assert key == id;
    }
  }

  lemma TeamClubs(m: Ids, teams: seq<Team<string>>, id: string)
    requires Injective(m.clubs) && id in m.clubs && forall t <- teams :: t.club in m.clubs
    ensures m.clubs[id] in (set t <- Map(CopyTeam(m.teams, m.clubs, m.athletes), teams) :: t.club)
            <==> id in (set t <- teams :: t.club)
  {
    var copy := CopyTeam(m.teams, m.clubs, m.athletes);
    if id in (set t <- teams :: t.club) {
      var t :| t in teams && t.club == id;
      Maps(copy, teams, t);
    }
    var copies: seq<Team<nat>> := Map(copy, teams);
    if m.clubs[id] in (set t <- copies :: t.club) {
      var y: Team<nat> :| y in Map(copy, teams) && y.club == m.clubs[id];
      var t := Mapped(copy, teams, y);
    }
  }

  // Every club the copies name is the copy of one the document names.
  lemma ClubsNamedKnown(m: Ids, athletes: seq<Athlete<string>>, teams: seq<Team<string>>, x: nat)
    requires forall t <- teams :: t.club in m.clubs
    requires x in ClubsNamed(Map(CopyAthlete(m.athletes, m.clubs), athletes), Map(CopyTeam(m.teams, m.clubs, m.athletes), teams))
    ensures exists id :: id in m.clubs && m.clubs[id] == x
  {
    var copyAthlete, copyTeam := CopyAthlete(m.athletes, m.clubs), CopyTeam(m.teams, m.clubs, m.athletes);
    if y: Athlete<nat> :| y in Map(copyAthlete, athletes) && x in y.clubs {
      var a := Mapped(copyAthlete, athletes, y);
    } else {
      var y: Team<nat> :| y in Map(copyTeam, teams) && y.club == x;
      var t := Mapped(copyTeam, teams, y);
    }
  }

  lemma ClubsNamedAlike(m: Ids, athletes: seq<Athlete<string>>, teams: seq<Team<string>>, id: string)
    requires Injective(m.clubs) && id in m.clubs && forall t <- teams :: t.club in m.clubs
    ensures m.clubs[id] in ClubsNamed(Map(CopyAthlete(m.athletes, m.clubs), athletes),
                                      Map(CopyTeam(m.teams, m.clubs, m.athletes), teams))
            <==> id in ClubsNamed(athletes, teams)
  {
    AthleteClubs(m, athletes, id);
    TeamClubs(m, teams, id);
  }

  lemma UsedClubCopied(m: Ids, items: seq<Club<string>>, athletes: seq<Athlete<string>>, teams: seq<Team<string>>, id: string)
    requires m.clubs.Keys == IdSet(ClubId(), items) && id in m.clubs && id in ClubsNamed(athletes, teams)
    ensures m.clubs[id] in set c <- Map(CopyClub(m.clubs), Filter(ClubUsed(athletes, teams), items)) :: c.id
  {
    var c := Owner(ClubId(), items, id);
    assert ClubUsed(athletes, teams)(c);
    Maps(CopyClub(m.clubs), Filter(ClubUsed(athletes, teams), items), c);
  }

  lemma ClubsExported(older: seq<Club<nat>>, m: Ids, items: seq<Club<string>>, athletes: seq<Athlete<string>>,
                      teams: seq<Team<string>>, floor: nat)
    requires Issues(m.clubs, IdSet(ClubId(), items), floor) && forall c <- older :: c.id < floor
    requires forall t <- teams :: t.club in m.clubs
    ensures var named := ClubsNamed(Map(CopyAthlete(m.athletes, m.clubs), athletes),
                                    Map(CopyTeam(m.teams, m.clubs, m.athletes), teams));
            var copies := Map(CopyClub(m.clubs), Filter(ClubUsed(athletes, teams), items));
            && Filter(ClubWithin(named), older + Map(CopyClub(m.clubs), items)) == copies
            && named <= set c <- copies :: c.id
  {
    var copy := CopyClub(m.clubs);
    var named := ClubsNamed(Map(CopyAthlete(m.athletes, m.clubs), athletes), Map(CopyTeam(m.teams, m.clubs, m.athletes), teams));
    var copies: seq<Club<nat>> := Map(copy, Filter(ClubUsed(athletes, teams), items));
    forall x | x in named ensures floor <= x && x in set c <- copies :: c.id {
      ClubsNamedKnown(m, athletes, teams, x);
      var id :| id in m.clubs && m.clubs[id] == x;
      ClubsNamedAlike(m, athletes, teams, id);
      UsedClubCopied(m, items, athletes, teams, id);
    }
    forall c | c in items ensures ClubUsed(athletes, teams)(c) == ClubWithin(named)(copy(c)) {
      InIdSet(ClubId(), items, c);
      ClubsNamedAlike(m, athletes, teams, c.id);
    }
    SelectSome(ClubWithin(named), ClubUsed(athletes, teams), copy, older, items);
  }

  // --- The round trip ---

  // The document as it comes back: under new identifiers, without the clubs and teams nothing
  // refers to, without the meet's external identifiers, para classes, announcement numbers and
  // references the document does not resolve, dates cut to the day, blank statuses, sources and
  // positioning filled in, rounds numbered anew and announcements at the time of import.
  function Returned(doc: Document<string>, m: Ids, now: int, meet: nat): Document<nat> {
    var teams := Filter(TeamUsed(doc.entries), doc.teams);
    ProgrammeOf(doc, m, now, meet).(
      header := StoredHeader(doc.header),
      clubs := Map(CopyClub(m.clubs), Filter(ClubUsed(doc.athletes, teams), doc.clubs)),
      athletes := Map(CopyAthlete(m.athletes, m.clubs), doc.athletes),
      teams := Map(CopyTeam(m.teams, m.clubs, m.athletes), teams))
  }

  lemma MeetFound(older: seq<Owned<Header>>, meet: nat, row: Header)
    requires forall o <- older :: o.meet < meet
    ensures FirstIndex(MeetOf<Header>(meet), older + [Owned(meet, row)]) == |older|
  {
    var all := older + [Owned(meet, row)];
    assert all[|older|] == Owned(meet, row);
    forall j | 0 <= j < |older| ensures !MeetOf<Header>(meet)(all[j]) {
      assert all[j] in older;
    }
    FirstIs(MeetOf<Header>(meet), all, |older|);
  }

  // Importing a valid document with distinct identifiers and keys, then exporting the new
  // meet, succeeds and returns the document under an injective renaming.
  lemma RoundTrip(st: Store, doc: Document<string>, now: int) returns (m: Ids)
    requires Valid(doc) && DistinctIds(doc) && Keyed(st, doc) && Closed(st)
    ensures Renames(m, KnownIn(doc), st.next)
    ensures Import(st, doc, now).Ok? && Import(st, doc, now).value.1 == st.next
    ensures Export(Import(st, doc, now).value.0, st.next) == Ok(Returned(doc, m, now, st.next))
  {
    var p, g, r;
    m, p, g, r := ImportCopies(st, doc, now);
    ValidResolves(doc);
    StoredHolds(st, doc, m, now, p, g, r);
    ExportReturns(st, doc, m, now, Stored(st, doc, p, g, r));
  }

  lemma StoredHolds(st: Store, doc: Document<string>, m: Ids, now: int, p: People, g: Programme, r: Record)
    requires PeopleCopied(st, doc, m, p) && ProgrammeCopied(st, doc, m, now, g) && RecordCopied(st, doc, m, r)
    ensures HoldsCopies(st, doc, m, now, Stored(st, doc, p, g, r))
  {
    AddedAthletes(st.athletes, Map(CopyAthlete(m.athletes, m.clubs), doc.athletes));
  }

  lemma AddedAthletes(older: seq<Athlete<nat>>, added: seq<Athlete<nat>>)
    ensures Added(older, older + added) == added
  {}

  // The store holds one copy of every entity beside what it held before.
  ghost predicate HoldsCopies(st: Store, doc: Document<string>, m: Ids, now: int, after: Store) {
    && after.meets == st.meets + [Owned(st.next, StoredHeader(doc.header))]
    && after.sessions == st.sessions + Map(CopySession(m.sessions, st.next), doc.sessions)
    && after.clubs == st.clubs + Map(CopyClub(m.clubs), doc.clubs)
    && after.athletes == st.athletes + Map(CopyAthlete(m.athletes, m.clubs), doc.athletes)
    && after.participants
       == st.participants + Map(Registered(st.next), Map(CopyAthlete(m.athletes, m.clubs), doc.athletes))
    && after.teams == st.teams + Map(CopyTeam(m.teams, m.clubs, m.athletes), doc.teams)
    && after.events == st.events + Map(CopyEvent(m.events, st.next), doc.events)
    && after.rounds == st.rounds + Map(CopyRound(m.rounds, m.events), OrderedRounds(doc.rounds))
    && after.units == st.units + Map(CopyUnit(m.units, m.rounds, now), doc.units)
    && after.entries == st.entries + Map(CopyEntry(m.entries, m.events, m.athletes, m.teams), doc.entries)
    && after.assignments == st.assignments + Map(CopyAssignment(m.assignments, m.units, m.entries), doc.assignments)
    && after.results == st.results + Map(CopyOutcome(m.results, m.units, m.athletes), doc.results)
  }

  // Athletes, teams and clubs are found again.
  ghost predicate PeopleFound(after: Store, d: Document<nat>, athleteIds: set<nat>, athletes: seq<Athlete<nat>>,
                              teams: seq<Team<nat>>, clubs: seq<Club<nat>>)
  {
    && Filter(AthleteWithin(athleteIds), after.athletes) == athletes && athleteIds <= (set a <- athletes :: a.id)
    && Filter(TeamWithin(TeamsNamed(d.entries)), after.teams) == teams
    && TeamsNamed(d.entries) <= (set t <- teams :: t.id)
    && Filter(ClubWithin(ClubsNamed(athletes, teams)), after.clubs) == clubs
    && ClubsNamed(athletes, teams) <= (set c <- clubs :: c.id)
  }

  lemma PeopleExported(st: Store, doc: Document<string>, m: Ids, now: int, after: Store)
    requires (forall a <- st.athletes :: a.id < st.next) && (forall t <- st.teams :: t.id < st.next)
    requires forall c <- st.clubs :: c.id < st.next
    requires Renames(m, KnownIn(doc), st.next) && Resolved(doc, KnownIn(doc))
    requires after.clubs == st.clubs + Map(CopyClub(m.clubs), doc.clubs)
    requires after.athletes == st.athletes + Map(CopyAthlete(m.athletes, m.clubs), doc.athletes)
    requires after.teams == st.teams + Map(CopyTeam(m.teams, m.clubs, m.athletes), doc.teams)
    ensures var teams := Filter(TeamUsed(doc.entries), doc.teams);
            PeopleFound(after, ProgrammeOf(doc, m, now, st.next), m.athletes.Values,
                        Map(CopyAthlete(m.athletes, m.clubs), doc.athletes),
                        Map(CopyTeam(m.teams, m.clubs, m.athletes), teams),
                        Map(CopyClub(m.clubs), Filter(ClubUsed(doc.athletes, teams), doc.clubs)))
  {
    AthletesExported(st.athletes, m.athletes, m.clubs, doc.athletes, st.next);
    TeamsExported(st.teams, m, doc.teams, doc.entries, st.next);
    ClubsExported(st.clubs, m, doc.clubs, doc.athletes, Filter(TeamUsed(doc.entries), doc.teams), st.next);
  }

  lemma ExportReturns(st: Store, doc: Document<string>, m: Ids, now: int, after: Store)
    requires Closed(st) && Renames(m, KnownIn(doc), st.next) && Resolved(doc, KnownIn(doc))
    requires All(UnitOk(KnownIn(doc).rounds), doc.units) && HoldsCopies(st, doc, m, now, after)
    ensures Export(after, st.next) == Ok(Returned(doc, m, now, st.next))
  {
    var teams := Filter(TeamUsed(doc.entries), doc.teams);
    MeetFound(st.meets, st.next, StoredHeader(doc.header));
    ProgrammeExported(st, doc, m, now, after);
    AthletesNamedExactly(st, doc, m, now, after);
    PeopleExported(st, doc, m, now, after);
    ExportIs(after, st.next, |st.meets|, ProgrammeOf(doc, m, now, st.next), m.athletes.Values,
             Map(CopyAthlete(m.athletes, m.clubs), doc.athletes), Map(CopyTeam(m.teams, m.clubs, m.athletes), teams),
             Map(CopyClub(m.clubs), Filter(ClubUsed(doc.athletes, teams), doc.clubs)));
  }

  lemma ExportIs(after: Store, meet: nat, k: nat, d: Document<nat>, athleteIds: set<nat>, athletes: seq<Athlete<nat>>,
                 teams: seq<Team<nat>>, clubs: seq<Club<nat>>)
    requires FirstIndex(MeetOf<Header>(meet), after.meets) == k < |after.meets|
    requires ExportProgramme(after, meet) == d && AthletesNamed(after, meet, d) == athleteIds
    requires PeopleFound(after, d, athleteIds, athletes, teams, clubs)
    ensures Export(after, meet)
         == Ok(d.(header := after.meets[k].row, clubs := clubs, athletes := athletes, teams := teams))
  {}

  // --- What is lost ---

  function NewIds(ids: map<string, nat>): string -> nat { (id: string) => At(ids, id) }

  function RenameAthlete(m: Ids): Athlete<string> -> Athlete<nat> {
    (a: Athlete<string>) =>
      Athlete(At(m.athletes, a.id), Map(NewIds(m.clubs), a.clubs), a.lastName, a.sex, a.birth, a.year, a.para, a.rest)
  }

  function RenameClub(m: Ids): Club<string> -> Club<nat> {
    (c: Club<string>) => Club(At(m.clubs, c.id), c.name, c.rest)
  }

  function RenameRound(m: Ids): Round<string> -> Round<nat> {
    (r: Round<string>) => Round(At(m.rounds, r.id), At(m.events, r.event), r.kind, r.order)
  }

  function RenameAssignment(m: Ids): Assignment<string> -> Assignment<nat> {
    (a: Assignment<string>) => Assignment(At(m.assignments, a.id), At(m.units, a.unit), At(m.entries, a.entry), a.lane, a.code, a.rest)
  }

  function RenameSession(m: Ids): Session<string> -> Session<nat> {
    (s: Session<string>) => Session(At(m.sessions, s.id), s.day, s.name)
  }

  function RenameUnit(m: Ids, now: int): Unit<string> -> Unit<nat> {
    (u: Unit<string>) => Unit(At(m.units, u.id), At(m.rounds, u.round), u.scheduled,
                              if u.announced.Some? then Some(now) else None, u.posting, u.rest)
  }

  function RenameTeam(m: Ids): Team<string> -> Team<nat> {
    (t: Team<string>) =>
      Team(At(m.teams, t.id), At(m.clubs, t.club), Map(NewIds(m.athletes), t.legs), Map(NewIds(m.athletes), t.reserves))
  }

  function RenameEvent(m: Ids): Event<string> -> Event<nat> {
    (e: Event<string>) => Event(At(m.events, e.id), e.discipline, e.categories, e.status, e.rest)
  }

  function RenameEntry(m: Ids): Entry<string> -> Entry<nat> {
    (e: Entry<string>) => Entry(At(m.entries, e.id), At(m.events, e.event), Follow(m.athletes, e.athlete),
                                Follow(m.teams, e.team), e.status, e.source, e.rest)
  }

  function RenameOutcome(m: Ids): Outcome<string> -> Outcome<nat> {
    (r: Outcome<string>) => Outcome(At(m.results, r.id), At(m.units, r.unit), At(m.athletes, r.athlete), r.source, r.rest)
  }

  // The same document under other identifiers, but for round numbers and announcement times.
  function Renamed(doc: Document<string>, m: Ids, now: int, meet: nat): Document<nat> {
    Document(OMX_V1, meet, doc.header, Map(RenameSession(m), doc.sessions), Map(RenameClub(m), doc.clubs),
             Map(RenameAthlete(m), doc.athletes), Map(RenameTeam(m), doc.teams), Map(RenameEvent(m), doc.events),
             Map(RenameRound(m), OrderedRounds(doc.rounds)), Map(RenameUnit(m, now), doc.units),
             Map(RenameEntry(m), doc.entries), Map(RenameAssignment(m), doc.assignments),
             Map(RenameOutcome(m), doc.results))
  }

  function AthleteWhole(clubs: set<string>): Athlete<string> -> bool {
    (a: Athlete<string>) =>
      && a.para == [] && (forall c <- a.clubs :: c in clubs)
      && (a.birth.Some? ==> WholeDay(a.birth.value) && a.year == a.birth.value.year)
  }

  // Dates without a time of day, nothing to fill in, no external identifiers.
  predicate HeaderWhole(h: Header) {
    WholeDay(h.start) && WholeDay(h.end) && h.status != "" && h.positioning != "" && h.externals == map[]
  }

  // A real schedule if any, and no announcement number.
  predicate UnitWhole(u: Unit<string>) { u.scheduled != Some(0) && u.posting == 0 }

  function TeamWhole(athletes: set<string>): Team<string> -> bool {
    (t: Team<string>) => (forall a <- t.legs :: a in athletes) && (forall a <- t.reserves :: a in athletes)
  }

  // Nothing for the import to drop, cut or fill in: clubs and legs resolve within the document,
  // no identifiers, classes or numbers without a column, whole days, no blank status, source or
  // positioning, and no club or team nothing refers to.
  ghost predicate Lossless(doc: Document<string>) {
    var used := Filter(TeamUsed(doc.entries), doc.teams);
    && HeaderWhole(doc.header) && (forall s <- doc.sessions :: WholeDay(s.day))
    && (forall u <- doc.units :: UnitWhole(u)) && (forall c <- doc.clubs :: ClubUsed(doc.athletes, used)(c))
    && (forall a <- doc.athletes :: AthleteWhole(KnownIn(doc).clubs)(a))
    && (forall t <- doc.teams :: TeamUsed(doc.entries)(t) && TeamWhole(KnownIn(doc).athletes)(t))
    && (forall e <- doc.events :: e.status != "")
    && (forall e <- doc.entries :: e.status != "" && e.source != "")
    && (forall r <- doc.results :: r.source != "")
  }

  lemma {:induction false} AllKept<T(!new)>(p: T -> bool, s: seq<T>)
    requires Count(p, s) == |s|
    ensures forall x <- s :: p(x)
  {
    if s != [] {
      CountMono(p, p, s[1..]);
      AllKept(p, s[1..]);
    }
  }

  lemma SameMap<T(!new), R>(p: T -> bool, f: T -> R, g: T -> R, s: seq<T>)
    ensures Map(f, Filter(p, s)) == Map(g, s) <==> forall x <- s :: p(x) && f(x) == g(x)
  {
    if Map(f, Filter(p, s)) == Map(g, s) {
      assert |Map(f, Filter(p, s))| == Count(p, s) && |Map(g, s)| == |s|;
      AllKept(p, s);
      FilterAll(p, s);
      forall x | x in s ensures f(x) == g(x) {
        var i :| 0 <= i < |s| && s[i] == x;
        assert Map(f, s)[i] == Map(g, s)[i];
      }
    }
    if forall x <- s :: p(x) && f(x) == g(x) {
      FilterAll(p, s);
      forall i | 0 <= i < |s| ensures Map(f, s)[i] == Map(g, s)[i] {
        assert s[i] in s;
      }
    }
  }

  lemma PlainMap<T(!new), R>(f: T -> R, g: T -> R, s: seq<T>)
    ensures Map(f, s) == Map(g, s) <==> forall x <- s :: f(x) == g(x)
  {
    var all := (x: T) => true;
    FilterAll(all, s);
    SameMap(all, f, g, s);
  }

  lemma {:induction false} RemapWhole(ids: seq<string>, m: map<string, nat>)
    ensures Remap(ids, m) == Map(NewIds(m), ids) <==> forall id <- ids :: id in m
  {
    if ids != [] {
      var init, last := ids[..|ids| - 1], ids[|ids| - 1];
      RemapWhole(init, m);
      MapLast(NewIds(m), ids);
      assert ids == init + [last];
      if last in m {
        assert Remap(ids, m) == Remap(init, m) + [m[last]];
        LastSplit(Remap(init, m), Map(NewIds(m), init), m[last]);
      } else {
        assert |Remap(ids, m)| < |ids|;
      }
    }
  }

  lemma LastSplit<T>(a: seq<T>, b: seq<T>, x: T)
    ensures a + [x] == b + [x] <==> a == b
  {
    if a + [x] == b + [x] {
      assert |a| + 1 == |b| + 1;
      assert (a + [x])[..|a|] == a && (b + [x])[..|b|] == b;
    }
  }

  lemma AthleteReturns(m: Ids, a: Athlete<string>)
    ensures CopyAthlete(m.athletes, m.clubs)(a) == RenameAthlete(m)(a) <==> AthleteWhole(m.clubs.Keys)(a)
  {
    RemapWhole(a.clubs, m.clubs);
  }

  lemma TeamReturns(m: Ids, t: Team<string>)
    ensures CopyTeam(m.teams, m.clubs, m.athletes)(t) == RenameTeam(m)(t) <==> TeamWhole(m.athletes.Keys)(t)
  {
    RemapWhole(t.legs, m.athletes);
    RemapWhole(t.reserves, m.athletes);
  }

  lemma SessionsReturn(sessions: seq<Session<string>>, m: Ids)
    ensures Map(SessionRow(m.sessions), sessions) == Map(RenameSession(m), sessions)
            <==> forall s <- sessions :: WholeDay(s.day)
  {
    PlainMap(SessionRow(m.sessions), RenameSession(m), sessions);
    assert forall s :: SessionRow(m.sessions)(s) == RenameSession(m)(s) <==> WholeDay(s.day);
  }

  lemma UnitsReturn(units: seq<Unit<string>>, m: Ids, now: int)
    ensures Map(CopyUnit(m.units, m.rounds, now), units) == Map(RenameUnit(m, now), units)
            <==> forall u <- units :: UnitWhole(u)
  {
    PlainMap(CopyUnit(m.units, m.rounds, now), RenameUnit(m, now), units);
    assert forall u :: CopyUnit(m.units, m.rounds, now)(u) == RenameUnit(m, now)(u) <==> UnitWhole(u);
  }

  lemma ClubsReturn(doc: Document<string>, m: Ids)
    ensures var used := ClubUsed(doc.athletes, Filter(TeamUsed(doc.entries), doc.teams));
            Map(CopyClub(m.clubs), Filter(used, doc.clubs)) == Map(RenameClub(m), doc.clubs)
            <==> forall c <- doc.clubs :: used(c)
  {
    SameMap(ClubUsed(doc.athletes, Filter(TeamUsed(doc.entries), doc.teams)), CopyClub(m.clubs), RenameClub(m), doc.clubs);
    assert forall c :: CopyClub(m.clubs)(c) == RenameClub(m)(c);
  }

  lemma AthletesReturn(athletes: seq<Athlete<string>>, m: Ids)
    ensures Map(CopyAthlete(m.athletes, m.clubs), athletes) == Map(RenameAthlete(m), athletes)
            <==> forall a <- athletes :: AthleteWhole(m.clubs.Keys)(a)
  {
    PlainMap(CopyAthlete(m.athletes, m.clubs), RenameAthlete(m), athletes);
    forall a ensures CopyAthlete(m.athletes, m.clubs)(a) == RenameAthlete(m)(a) <==> AthleteWhole(m.clubs.Keys)(a) {
      AthleteReturns(m, a);
    }
  }

  lemma TeamsReturn(teams: seq<Team<string>>, entries: seq<Entry<string>>, m: Ids)
    ensures Map(CopyTeam(m.teams, m.clubs, m.athletes), Filter(TeamUsed(entries), teams)) == Map(RenameTeam(m), teams)
            <==> forall t <- teams :: TeamUsed(entries)(t) && TeamWhole(m.athletes.Keys)(t)
  {
    SameMap(TeamUsed(entries), CopyTeam(m.teams, m.clubs, m.athletes), RenameTeam(m), teams);
    forall t ensures CopyTeam(m.teams, m.clubs, m.athletes)(t) == RenameTeam(m)(t) <==> TeamWhole(m.athletes.Keys)(t) {
      TeamReturns(m, t);
    }
  }

  lemma EventsReturn(events: seq<Event<string>>, m: Ids)
    ensures Map(EventRow(m.events), events) == Map(RenameEvent(m), events) <==> forall e <- events :: e.status != ""
  {
    PlainMap(EventRow(m.events), RenameEvent(m), events);
    assert forall e :: EventRow(m.events)(e) == RenameEvent(m)(e) <==> e.status != "";
  }

  lemma EntriesReturn(entries: seq<Entry<string>>, m: Ids)
    ensures Map(CopyEntry(m.entries, m.events, m.athletes, m.teams), entries) == Map(RenameEntry(m), entries)
            <==> forall e <- entries :: e.status != "" && e.source != ""
  {
    PlainMap(CopyEntry(m.entries, m.events, m.athletes, m.teams), RenameEntry(m), entries);
    assert forall e :: CopyEntry(m.entries, m.events, m.athletes, m.teams)(e) == RenameEntry(m)(e)
                       <==> e.status != "" && e.source != "";
  }

  lemma OutcomesReturn(results: seq<Outcome<string>>, m: Ids)
    ensures Map(CopyOutcome(m.results, m.units, m.athletes), results) == Map(RenameOutcome(m), results)
            <==> forall r <- results :: r.source != ""
  {
    PlainMap(CopyOutcome(m.results, m.units, m.athletes), RenameOutcome(m), results);
    assert forall r :: CopyOutcome(m.results, m.units, m.athletes)(r) == RenameOutcome(m)(r) <==> r.source != "";
  }

  // The document comes back as a renaming of itself, up to round numbers and announcement
  // times, if and only if it is lossless.
  lemma LosslessExactly(doc: Document<string>, m: Ids, now: int, meet: nat)
    requires m.clubs.Keys == KnownIn(doc).clubs && m.athletes.Keys == KnownIn(doc).athletes
    ensures Returned(doc, m, now, meet) == Renamed(doc, m, now, meet) <==> Lossless(doc)
  {
    PartsReturn(doc, m, now, meet);
    SessionsReturn(doc.sessions, m);
    UnitsReturn(doc.units, m, now);
    ClubsReturn(doc, m);
    AthletesReturn(doc.athletes, m);
    TeamsReturn(doc.teams, doc.entries, m);
    EventsReturn(doc.events, m);
    EntriesReturn(doc.entries, m);
    OutcomesReturn(doc.results, m);
  }

  // The two documents agree exactly when they agree kind by kind.
  lemma PartsReturn(doc: Document<string>, m: Ids, now: int, meet: nat)
    ensures var teams := Filter(TeamUsed(doc.entries), doc.teams);
            Returned(doc, m, now, meet) == Renamed(doc, m, now, meet) <==>
              && HeaderWhole(doc.header)
              && Map(SessionRow(m.sessions), doc.sessions) == Map(RenameSession(m), doc.sessions)
              && Map(CopyUnit(m.units, m.rounds, now), doc.units) == Map(RenameUnit(m, now), doc.units)
              && Map(CopyClub(m.clubs), Filter(ClubUsed(doc.athletes, teams), doc.clubs)) == Map(RenameClub(m), doc.clubs)
              && Map(CopyAthlete(m.athletes, m.clubs), doc.athletes) == Map(RenameAthlete(m), doc.athletes)
              && Map(CopyTeam(m.teams, m.clubs, m.athletes), teams) == Map(RenameTeam(m), doc.teams)
              && Map(EventRow(m.events), doc.events) == Map(RenameEvent(m), doc.events)
              && Map(CopyEntry(m.entries, m.events, m.athletes, m.teams), doc.entries) == Map(RenameEntry(m), doc.entries)
              && Map(CopyOutcome(m.results, m.units, m.athletes), doc.results) == Map(RenameOutcome(m), doc.results)
  {
    assert StoredHeader(doc.header) == doc.header <==> HeaderWhole(doc.header);
    PlainMap(CopyRound(m.rounds, m.events), RenameRound(m), OrderedRounds(doc.rounds));
    PlainMap(CopyAssignment(m.assignments, m.units, m.entries), RenameAssignment(m), doc.assignments);
  }

  // Import and export give the whole document back if and only if it is lossless.
  lemma ComesBackWholeExactly(st: Store, doc: Document<string>, now: int) returns (m: Ids)
    requires Valid(doc) && DistinctIds(doc) && Keyed(st, doc) && Closed(st)
    ensures Renames(m, KnownIn(doc), st.next) && Import(st, doc, now).Ok?
    ensures Export(Import(st, doc, now).value.0, st.next) == Ok(Renamed(doc, m, now, st.next)) <==> Lossless(doc)
  {
    m := RoundTrip(st, doc, now);
    LosslessExactly(doc, m, now, st.next);
  }

  // --- A document that does not come back whole ---

  const EMPTY_STORE := Store(0, [], [], [], [], [], [], [], [], [], [], [], [])

  // One day, one session, no competitors yet, and the identifier a federation gave the meet.
  const REGISTERED: Document<string> :=
    Document(OMX_V1, "m",
             Header("Cup", Moment(2026, 120, 0, 0), Moment(2026, 120, 0, 0), "published", "primary",
                    map["swiss-athletics:wettkampfverwaltung-id" := "7"], ""),
             [Session("s", Moment(2026, 120, 0, 0), "morning")], [], [], [], [], [], [], [], [], [])

  // The document is accepted and imported, and the export no longer has the identifier.
  lemma ExternalIdsAreLost(now: int)
    ensures Valid(REGISTERED) && !Lossless(REGISTERED)
    ensures Import(EMPTY_STORE, REGISTERED, now).Ok?
    ensures var back := Export(Import(EMPTY_STORE, REGISTERED, now).value.0, 0);
            back.Ok? && back.value.header == REGISTERED.header.(externals := map[]) != REGISTERED.header
  {
    RegisteredAccepted();
    assert "swiss-athletics:wettkampfverwaltung-id" in REGISTERED.header.externals;
    var m := RoundTrip(EMPTY_STORE, REGISTERED, now);
    ReturnedHeader(m, now);
  }

  lemma RegisteredAccepted()
    ensures Valid(REGISTERED) && DistinctIds(REGISTERED) && Keyed(EMPTY_STORE, REGISTERED) && Closed(EMPTY_STORE)
  {
    assert Map(SessionId(), REGISTERED.sessions) == ["s"];
  }

  lemma ReturnedHeader(m: Ids, now: int)
    ensures Returned(REGISTERED, m, now, 0).header == REGISTERED.header.(externals := map[])
  {}
}
