// The rows an import of a keyed document leaves: one copy of every entity, under identifiers
// never issued before, with every reference following its target.
module OmxCopies {
  import opened Basics
  import opened Omx

  // --- Fresh identifiers ---

  // Consecutive identifiers from base on.
  function Numbered(ids: seq<string>, base: nat): map<string, nat> {
    if ids == [] then map[] else Numbered(ids[..|ids| - 1], base)[ids[|ids| - 1] := base + |ids| - 1]
  }

  ghost predicate Injective(m: map<string, nat>) {
    forall a, b :: a in m && b in m && m[a] == m[b] ==> a == b
  }

  lemma {:induction false} NumberedFacts(ids: seq<string>, base: nat)
    ensures forall id :: id in Numbered(ids, base) <==> id in ids
    ensures forall id :: id in Numbered(ids, base) ==> base <= Numbered(ids, base)[id] < base + |ids|
    ensures Injective(Numbered(ids, base))
  {
    if ids != [] {
      NumberedFacts(ids[..|ids| - 1], base);
      assert ids == ids[..|ids| - 1] + [ids[|ids| - 1]];
    }
  }

  lemma {:induction false} NumberedAt(ids: seq<string>, base: nat, i: nat)
    requires Distinct(ids) && i < |ids|
    ensures ids[i] in Numbered(ids, base) && Numbered(ids, base)[ids[i]] == base + i
  {
    if i < |ids| - 1 { NumberedAt(ids[..|ids| - 1], base, i); }
  }

  // Every identifier is from floor on: no older row refers to it.
  ghost predicate Younger(m: map<string, nat>, floor: nat) {
    Injective(m) && forall id :: id in m ==> floor <= m[id]
  }

  // Handed out from floor on, one each, to exactly these.
  ghost predicate Issues(m: map<string, nat>, keys: set<string>, floor: nat) {
    m.Keys == keys && Younger(m, floor)
  }

  lemma NumberedKeys<T>(idOf: T -> string, items: seq<T>, base: nat)
    ensures Numbered(Map(idOf, items), base).Keys == IdSet(idOf, items)
  {
    NumberedFacts(Map(idOf, items), base);
    forall id ensures id in Numbered(Map(idOf, items), base) <==> id in IdSet(idOf, items) {
      if id in Map(idOf, items) {
        var i :| 0 <= i < |items| && Map(idOf, items)[i] == id;
        assert idOf(items[i]) in IdSet(idOf, items);
      }
      if id in IdSet(idOf, items) {
        var i :| 0 <= i < |items| && idOf(items[i]) == id;
        assert Map(idOf, items)[i] == id;
      }
    }
  }

  lemma NumberedIssues<T>(idOf: T -> string, items: seq<T>, base: nat, floor: nat)
    requires floor <= base
    ensures Issues(Numbered(Map(idOf, items), base), IdSet(idOf, items), floor)
  {
    NumberedKeys(idOf, items, base);
    NumberedFacts(Map(idOf, items), base);
  }

  function At(m: map<string, nat>, id: string): nat { if id in m then m[id] else 0 }

  // --- Copies ---

  function NewSession(ids: map<string, nat>, s: Session<string>): Session<nat> {
    Session(At(ids, s.id), DayOnly(s.day), s.name)
  }

  function SessionRow(ids: map<string, nat>): Session<string> -> Session<nat> {
    (s: Session<string>) => NewSession(ids, s)
  }

  function CopySession(ids: map<string, nat>, meet: nat): Session<string> -> Owned<Session<nat>> {
    (s: Session<string>) => Owned(meet, NewSession(ids, s))
  }

  function CopyClub(ids: map<string, nat>): Club<string> -> Club<nat> {
    (c: Club<string>) => Club(At(ids, c.id), c.name, c.rest)
  }

  function CopyAthlete(ids: map<string, nat>, clubs: map<string, nat>): Athlete<string> -> Athlete<nat> {
    (a: Athlete<string>) =>
      Athlete(At(ids, a.id), Remap(a.clubs, clubs), a.lastName, a.sex, StoredBirth(a.birth), BirthYear(a), [], a.rest)
  }

  function CopyTeam(ids: map<string, nat>, clubs: map<string, nat>, athletes: map<string, nat>)
    : Team<string> -> Team<nat>
  {
    (t: Team<string>) => Team(At(ids, t.id), At(clubs, t.club), Remap(t.legs, athletes), Remap(t.reserves, athletes))
  }

  function NewEvent(ids: map<string, nat>, e: Event<string>): Event<nat> {
    Event(At(ids, e.id), e.discipline, e.categories, OrElse(e.status, "draft"), e.rest)
  }

  function EventRow(ids: map<string, nat>): Event<string> -> Event<nat> {
    (e: Event<string>) => NewEvent(ids, e)
  }

  function CopyEvent(ids: map<string, nat>, meet: nat): Event<string> -> Owned<Event<nat>> {
    (e: Event<string>) => Owned(meet, NewEvent(ids, e))
  }

  function CopyRound(ids: map<string, nat>, events: map<string, nat>): Round<string> -> Round<nat> {
    (r: Round<string>) => Round(At(ids, r.id), At(events, r.event), r.kind, r.order)
  }

  function CopyUnit(ids: map<string, nat>, rounds: map<string, nat>, now: int): Unit<string> -> Unit<nat> {
    (u: Unit<string>) => Unit(At(ids, u.id), At(rounds, u.round), StoredSchedule(u.scheduled),
                              if u.announced.Some? then Some(now) else None, 0, u.rest)
  }

  function Follow(ids: map<string, nat>, id: Option<string>): Option<nat> {
    if id.None? then None else Some(At(ids, id.value))
  }

  function CopyEntry(ids: map<string, nat>, events: map<string, nat>, athletes: map<string, nat>,
                     teams: map<string, nat>): Entry<string> -> Entry<nat>
  {
    (e: Entry<string>) =>
      Entry(At(ids, e.id), At(events, e.event), Follow(athletes, e.athlete), Follow(teams, e.team),
            OrElse(e.status, "entered"), OrElse(e.source, "online"), e.rest)
  }

  function CopyAssignment(ids: map<string, nat>, units: map<string, nat>, entries: map<string, nat>)
    : Assignment<string> -> Assignment<nat>
  {
    (a: Assignment<string>) => Assignment(At(ids, a.id), At(units, a.unit), At(entries, a.entry), a.lane, a.code, a.rest)
  }

  function CopyOutcome(ids: map<string, nat>, units: map<string, nat>, athletes: map<string, nat>)
    : Outcome<string> -> Outcome<nat>
  {
    (r: Outcome<string>) => Outcome(At(ids, r.id), At(units, r.unit), At(athletes, r.athlete), OrElse(r.source, "manual"), r.rest)
  }

  // --- One loop ---

  ghost predicate MakesCopy<T, R>(make: (T, nat) -> Result<R, ImportError>, copy: T -> R, items: seq<T>, next: nat, i: nat)
    requires i < |items|
  {
    make(items[i], next + i) == Ok(copy(items[i]))
  }

  // The table takes the copy of item i after those of the items before it.
  ghost predicate Fits<T, R>(put: (seq<R>, R) -> Result<seq<R>, ImportError>, copy: T -> R, rows: seq<R>,
                             items: seq<T>, i: nat)
    requires i < |items|
  {
    put(rows + Map(copy, items[..i]), copy(items[i])) == Ok(rows + Map(copy, items[..i]) + [copy(items[i])])
  }

  ghost predicate MakesCopies<T, R>(make: (T, nat) -> Result<R, ImportError>, copy: T -> R, items: seq<T>, next: nat) {
    forall i :: 0 <= i < |items| ==> MakesCopy(make, copy, items, next, i)
  }

  ghost predicate TakesCopies<T, R>(put: (seq<R>, R) -> Result<seq<R>, ImportError>, copy: T -> R, rows: seq<R>,
                                    items: seq<T>)
  {
    forall i :: 0 <= i < |items| ==> Fits(put, copy, rows, items, i)
  }

  // Everything copied: the rows, the identifiers, and the next free one.
  function Copied<T, R>(idOf: T -> string, copy: T -> R, rows: seq<R>, next: nat, items: seq<T>): Filled<R> {
    Filled(rows + Map(copy, items), Numbered(Map(idOf, items), next), next + |items|)
  }

  lemma CopiedNext<T, R>(idOf: T -> string, copy: T -> R, rows: seq<R>, next: nat, items: seq<T>, n: nat)
    requires n < |items|
    ensures var before := Copied(idOf, copy, rows, next, items[..n]);
            Copied(idOf, copy, rows, next, items[..n + 1])
            == Filled(before.rows + [copy(items[n])], before.ids[idOf(items[n]) := before.next], before.next + 1)
  {
    RowsNext(copy, rows, items, n);
    IdsNext(idOf, items, next, n);
  }

  lemma {:induction false} FillUpTo<T, R>(
    make: (T, nat) -> Result<R, ImportError>, put: (seq<R>, R) -> Result<seq<R>, ImportError>, idOf: T -> string,
    copy: T -> R, rows: seq<R>, next: nat, items: seq<T>, n: nat)
    requires n <= |items| && MakesCopies(make, copy, items, next) && TakesCopies(put, copy, rows, items)
    ensures Fill(make, put, idOf, Filled(rows, map[], next), items[..n]) == Ok(Copied(idOf, copy, rows, next, items[..n]))
  {
    if n == 0 {
      assert items[..0] == [] && rows + [] == rows;
      assert Copied(idOf, copy, rows, next, []) == Filled(rows, map[], next);
    } else {
      var k := n - 1;
      FillUpTo(make, put, idOf, copy, rows, next, items, k);
      CopiedNext(idOf, copy, rows, next, items, k);
      assert MakesCopy(make, copy, items, next, k) && Fits(put, copy, rows, items, k);
      var before := Copied(idOf, copy, rows, next, items[..k]);
      FillNext(make, put, idOf, Filled(rows, map[], next), items, k, before, copy(items[k]), before.rows + [copy(items[k])]);
    }
  }

  lemma FillNext<T, R>(
    make: (T, nat) -> Result<R, ImportError>, put: (seq<R>, R) -> Result<seq<R>, ImportError>, idOf: T -> string,
    start: Filled<R>, items: seq<T>, n: nat, before: Filled<R>, row: R, rows: seq<R>)
    requires n < |items| && Fill(make, put, idOf, start, items[..n]) == Ok(before)
    requires make(items[n], before.next) == Ok(row) && put(before.rows, row) == Ok(rows)
    ensures Fill(make, put, idOf, start, items[..n + 1])
         == Ok(Filled(rows, before.ids[idOf(items[n]) := before.next], before.next + 1))
  {
    assert items[..n + 1][..n] == items[..n];
  }

  lemma RowsNext<T, R>(copy: T -> R, rows: seq<R>, items: seq<T>, n: nat)
    requires n < |items|
    ensures rows + Map(copy, items[..n + 1]) == rows + Map(copy, items[..n]) + [copy(items[n])]
  {
    assert items[..n + 1][..n] == items[..n];
    MapLast(copy, items[..n + 1]);
  }

  lemma IdsNext<T>(idOf: T -> string, items: seq<T>, next: nat, n: nat)
    requires n < |items|
    ensures Numbered(Map(idOf, items[..n + 1]), next) == Numbered(Map(idOf, items[..n]), next)[idOf(items[n]) := next + n]
  {
    assert items[..n + 1][..n] == items[..n];
    MapLast(idOf, items[..n + 1]);
    var before := Map(idOf, items[..n]);
    assert (before + [idOf(items[n])])[..n] == before;
  }

  // A row stored before item i is an older one or the copy of an earlier item.
  lemma Prior<T, R>(copy: T -> R, rows: seq<R>, items: seq<T>, i: nat, x: R) returns (j: nat)
    requires i <= |items| && x in rows + Map(copy, items[..i]) && x !in rows
    ensures j < i && x == copy(items[j])
  {
    j :| 0 <= j < i && Map(copy, items[..i])[j] == x;
  }

  lemma FillCopies<T, R>(
    make: (T, nat) -> Result<R, ImportError>, put: (seq<R>, R) -> Result<seq<R>, ImportError>, idOf: T -> string,
    copy: T -> R, rows: seq<R>, next: nat, items: seq<T>)
    requires MakesCopies(make, copy, items, next) && TakesCopies(put, copy, rows, items)
    ensures Fill(make, put, idOf, Filled(rows, map[], next), items)
         == Ok(Copied(idOf, copy, rows, next, items))
  {
    FillUpTo(make, put, idOf, copy, rows, next, items, |items|);
    assert items[..|items|] == items;
  }

  lemma OwnId<T>(idOf: T -> string, items: seq<T>, next: nat, i: nat)
    requires Distinct(Map(idOf, items)) && i < |items|
    ensures At(Numbered(Map(idOf, items), next), idOf(items[i])) == next + i
  {
    NumberedAt(Map(idOf, items), next, i);
  }

  // --- Loop by loop ---

  lemma SessionsCopied(rows: seq<Owned<Session<nat>>>, next: nat, items: seq<Session<string>>, meet: nat, floor: nat)
    returns (f: Filled<Owned<Session<nat>>>)
    requires floor <= next
    requires Distinct(Map(SessionId(), items)) && forall s <- items :: !IsZero(s.day)
    ensures Fill(MakeSession(meet), Append(), SessionId(), Filled(rows, map[], next), items) == Ok(f)
    ensures f.rows == rows + Map(CopySession(f.ids, meet), items) && Issues(f.ids, IdSet(SessionId(), items), floor) && next <= f.next
  {
    var copy := CopySession(Numbered(Map(SessionId(), items), next), meet);
    forall i | 0 <= i < |items| ensures MakesCopy(MakeSession(meet), copy, items, next, i) {
      OwnId(SessionId(), items, next, i);
      assert items[i] in items;
    }
    FillCopies(MakeSession(meet), Append(), SessionId(), copy, rows, next, items);
    NumberedIssues(SessionId(), items, next, floor);
    f := Copied(SessionId(), copy, rows, next, items);
  }

  ghost predicate NamesFree(rows: seq<Club<nat>>, items: seq<Club<string>>) {
    && (forall c <- rows, x <- items :: c.name != x.name)
    && (forall i, j :: 0 <= i < j < |items| ==> items[i].name != items[j].name)
  }

  lemma ClubFits(copy: Club<string> -> Club<nat>, rows: seq<Club<nat>>, items: seq<Club<string>>, i: nat)
    requires i < |items| && NamesFree(rows, items) && forall c :: copy(c).name == c.name
    ensures Fits(PutClub(), copy, rows, items, i)
  {
    forall x | x in rows + Map(copy, items[..i]) ensures x.name != items[i].name {
      if x in rows {
        assert items[i] in items;
      } else {
        var j := Prior(copy, rows, items, i, x);
      }
    }
  }

  lemma ClubsCopied(rows: seq<Club<nat>>, next: nat, items: seq<Club<string>>, floor: nat)
    returns (f: Filled<Club<nat>>)
    requires floor <= next
    requires Distinct(Map(ClubId(), items)) && NamesFree(rows, items)
    ensures Fill(MakeClub(), PutClub(), ClubId(), Filled(rows, map[], next), items) == Ok(f)
    ensures f.rows == rows + Map(CopyClub(f.ids), items) && Issues(f.ids, IdSet(ClubId(), items), floor) && next <= f.next
  {
    var copy := CopyClub(Numbered(Map(ClubId(), items), next));
    forall i | 0 <= i < |items| ensures MakesCopy(MakeClub(), copy, items, next, i) {
      OwnId(ClubId(), items, next, i);
    }
    forall i | 0 <= i < |items|
      ensures Fits(PutClub(), copy, rows, items, i)
    {
      ClubFits(copy, rows, items, i);
    }
    FillCopies(MakeClub(), PutClub(), ClubId(), copy, rows, next, items);
    NumberedIssues(ClubId(), items, next, floor);
    f := Copied(ClubId(), copy, rows, next, items);
  }

  lemma AthletesCopied(rows: seq<Athlete<nat>>, next: nat, items: seq<Athlete<string>>, clubs: map<string, nat>, floor: nat)
    returns (f: Filled<Athlete<nat>>)
    requires floor <= next
    requires Distinct(Map(AthleteId(), items)) && forall a <- items :: BirthYear(a) != 0
    ensures Fill(MakeAthlete(clubs), Append(), AthleteId(), Filled(rows, map[], next), items) == Ok(f)
    ensures f.rows == rows + Map(CopyAthlete(f.ids, clubs), items) && Issues(f.ids, IdSet(AthleteId(), items), floor) && next <= f.next
  {
    var copy := CopyAthlete(Numbered(Map(AthleteId(), items), next), clubs);
    forall i | 0 <= i < |items| ensures MakesCopy(MakeAthlete(clubs), copy, items, next, i) {
      OwnId(AthleteId(), items, next, i);
      assert items[i] in items;
    }
    FillCopies(MakeAthlete(clubs), Append(), AthleteId(), copy, rows, next, items);
    NumberedIssues(AthleteId(), items, next, floor);
    f := Copied(AthleteId(), copy, rows, next, items);
  }

  // A team the store takes: somebody runs, and nobody twice.
  ghost predicate TeamKeyed(athletes: set<string>, t: Team<string>) {
    (exists id <- t.legs :: id in athletes) && Distinct(t.legs + t.reserves)
  }

  lemma {:induction false} RemapDistinct(ids: seq<string>, m: map<string, nat>)
    requires Distinct(ids) && Injective(m)
    ensures Distinct(Remap(ids, m))
  {
    if ids != [] {
      var init, last := ids[..|ids| - 1], ids[|ids| - 1];
      RemapDistinct(init, m);
      assert last !in init;
      forall x | x in Remap(init, m) ensures last in m ==> x != m[last] {
        var id :| id in init && id in m && m[id] == x;
      }
      if last in m { DistinctSnoc(Remap(init, m), m[last]); }
    }
  }

  lemma DistinctSnoc<T>(s: seq<T>, x: T)
    requires Distinct(s) && x !in s
    ensures Distinct(s + [x])
  {}

  lemma {:induction false} RemapAppend(a: seq<string>, b: seq<string>, m: map<string, nat>)
    ensures Remap(a + b, m) == Remap(a, m) + Remap(b, m)
  {
    if b == [] {
      assert a + b == a;
    } else {
      var init, last := b[..|b| - 1], b[|b| - 1];
      RemapAppend(a, init, m);
      assert (a + b)[..|a + b| - 1] == a + init && (a + b)[|a + b| - 1] == last;
      var added := if last in m then [m[last]] else [];
      assert Remap(a, m) + Remap(init, m) + added == Remap(a, m) + (Remap(init, m) + added);
    }
  }

  lemma {:induction false} DistinctHasNoRepeats(s: seq<nat>)
    requires Distinct(s)
    ensures NoRepeats(s)
  {
    if s != [] { DistinctHasNoRepeats(s[1..]); }
  }

  lemma TeamStorable(t: Team<string>, athletes: map<string, nat>)
    requires TeamKeyed(athletes.Keys, t) && Injective(athletes)
    ensures Remap(t.legs, athletes) != [] && NoRepeats(Remap(t.legs, athletes) + Remap(t.reserves, athletes))
  {
    var id :| id in t.legs && id in athletes;
    assert athletes[id] in Remap(t.legs, athletes);
    RemapDistinct(t.legs + t.reserves, athletes);
    RemapAppend(t.legs, t.reserves, athletes);
    DistinctHasNoRepeats(Remap(t.legs + t.reserves, athletes));
  }

  lemma TeamsCopied(rows: seq<Team<nat>>, next: nat, items: seq<Team<string>>, clubs: map<string, nat>,
                    athletes: map<string, nat>, floor: nat)
    returns (f: Filled<Team<nat>>)
    requires floor <= next
    requires Distinct(Map(TeamId(), items)) && All(TeamOk(clubs.Keys), items) && Injective(athletes)
    requires forall t <- items :: TeamKeyed(athletes.Keys, t)
    ensures Fill(MakeTeam(clubs, athletes), PutTeam(), TeamId(), Filled(rows, map[], next), items) == Ok(f)
    ensures f.rows == rows + Map(CopyTeam(f.ids, clubs, athletes), items) && Issues(f.ids, IdSet(TeamId(), items), floor) && next <= f.next
  {
    var copy := CopyTeam(Numbered(Map(TeamId(), items), next), clubs, athletes);
    forall i | 0 <= i < |items| ensures MakesCopy(MakeTeam(clubs, athletes), copy, items, next, i) {
      OwnId(TeamId(), items, next, i);
      assert TeamOk(clubs.Keys)(items[i]);
    }
    forall i | 0 <= i < |items|
      ensures copy(items[i]).legs != [] && NoRepeats(copy(items[i]).legs + copy(items[i]).reserves)
    {
      TeamStorable(items[i], athletes);
    }
    FillCopies(MakeTeam(clubs, athletes), PutTeam(), TeamId(), copy, rows, next, items);
    NumberedIssues(TeamId(), items, next, floor);
    f := Copied(TeamId(), copy, rows, next, items);
  }

  lemma EventsCopied(rows: seq<Owned<Event<nat>>>, next: nat, items: seq<Event<string>>, meet: nat, floor: nat)
    returns (f: Filled<Owned<Event<nat>>>)
    requires floor <= next
    requires Distinct(Map(EventId(), items))
    ensures Fill(MakeEvent(meet), Append(), EventId(), Filled(rows, map[], next), items) == Ok(f)
    ensures f.rows == rows + Map(CopyEvent(f.ids, meet), items) && Issues(f.ids, IdSet(EventId(), items), floor) && next <= f.next
  {
    var copy := CopyEvent(Numbered(Map(EventId(), items), next), meet);
    forall i | 0 <= i < |items| ensures MakesCopy(MakeEvent(meet), copy, items, next, i) {
      OwnId(EventId(), items, next, i);
    }
    FillCopies(MakeEvent(meet), Append(), EventId(), copy, rows, next, items);
    NumberedIssues(EventId(), items, next, floor);
    f := Copied(EventId(), copy, rows, next, items);
  }

  lemma RoundsFit(rows: seq<Round<nat>>, copy: Round<string> -> Round<nat>, items: seq<Round<string>>)
    requires forall r <- items :: copy(r).kind == r.kind && r.kind != ""
    ensures forall i :: 0 <= i < |items| ==> Fits(PutRound(), copy, rows, items, i)
  {
    forall i | 0 <= i < |items| ensures Fits(PutRound(), copy, rows, items, i) {
      assert items[i] in items;
    }
  }

  lemma RoundsCopied(rows: seq<Round<nat>>, next: nat, items: seq<Round<string>>, events: map<string, nat>, floor: nat)
    returns (f: Filled<Round<nat>>)
    requires floor <= next
    requires Distinct(Map(RoundId(), items))
    requires forall r <- items :: r.event in events && r.kind != ""
    ensures Fill(MakeRound(events), PutRound(), RoundId(), Filled(rows, map[], next), items) == Ok(f)
    ensures f.rows == rows + Map(CopyRound(f.ids, events), items) && Issues(f.ids, IdSet(RoundId(), items), floor) && next <= f.next
  {
    var copy := CopyRound(Numbered(Map(RoundId(), items), next), events);
    forall i | 0 <= i < |items| ensures MakesCopy(MakeRound(events), copy, items, next, i) {
      OwnId(RoundId(), items, next, i);
      assert items[i] in items;
    }
    RoundsFit(rows, copy, items);
    FillCopies(MakeRound(events), PutRound(), RoundId(), copy, rows, next, items);
    NumberedIssues(RoundId(), items, next, floor);
    f := Copied(RoundId(), copy, rows, next, items);
  }

  lemma UnitsCopied(rows: seq<Unit<nat>>, next: nat, items: seq<Unit<string>>, rounds: map<string, nat>, now: int, floor: nat)
    returns (f: Filled<Unit<nat>>)
    requires floor <= next
    requires Distinct(Map(UnitId(), items)) && All(UnitOk(rounds.Keys), items)
    ensures Fill(MakeUnit(rounds, now), Append(), UnitId(), Filled(rows, map[], next), items) == Ok(f)
    ensures f.rows == rows + Map(CopyUnit(f.ids, rounds, now), items) && Issues(f.ids, IdSet(UnitId(), items), floor) && next <= f.next
  {
    var copy := CopyUnit(Numbered(Map(UnitId(), items), next), rounds, now);
    forall i | 0 <= i < |items| ensures MakesCopy(MakeUnit(rounds, now), copy, items, next, i) {
      OwnId(UnitId(), items, next, i);
      assert UnitOk(rounds.Keys)(items[i]);
    }
    FillCopies(MakeUnit(rounds, now), Append(), UnitId(), copy, rows, next, items);
    NumberedIssues(UnitId(), items, next, floor);
    f := Copied(UnitId(), copy, rows, next, items);
  }

  // No athlete and no team is entered twice in an event.
  ghost predicate EntriesKeyed(items: seq<Entry<string>>) {
    forall i, j :: 0 <= i < j < |items| && items[i].event == items[j].event ==>
      (items[j].athlete.Some? ==> items[i].athlete != items[j].athlete)
      && (items[j].team.Some? ==> items[i].team != items[j].team)
  }

  lemma EntryFits(rows: seq<Entry<nat>>, e: Entry<nat>)
    requires forall x <- rows :: !SameEntry(x, e)
    ensures PutEntry()(rows, e) == Ok(rows + [e])
  {}

  lemma EntriesDiffer(ids: map<string, nat>, events: map<string, nat>, athletes: map<string, nat>,
                      teams: map<string, nat>, x: Entry<string>, e: Entry<string>)
    requires Injective(events) && Injective(athletes) && Injective(teams)
    requires EntryOk(events.Keys, athletes.Keys, teams.Keys)(x) && EntryOk(events.Keys, athletes.Keys, teams.Keys)(e)
    requires x.event == e.event ==> (e.athlete.Some? ==> x.athlete != e.athlete) && (e.team.Some? ==> x.team != e.team)
    ensures !SameEntry(CopyEntry(ids, events, athletes, teams)(x), CopyEntry(ids, events, athletes, teams)(e))
  {}

  lemma EntryMade(ids: map<string, nat>, events: map<string, nat>, athletes: map<string, nat>,
                  teams: map<string, nat>, e: Entry<string>, id: nat)
    requires EntryOk(events.Keys, athletes.Keys, teams.Keys)(e) && At(ids, e.id) == id
    ensures MakeEntry(events, athletes, teams)(e, id) == Ok(CopyEntry(ids, events, athletes, teams)(e))
  {}

  lemma EntryCopyFits(ids: map<string, nat>, rows: seq<Entry<nat>>, items: seq<Entry<string>>, events: map<string, nat>,
                      athletes: map<string, nat>, teams: map<string, nat>, floor: nat, i: nat)
    requires i < |items| && EntriesKeyed(items) && All(EntryOk(events.Keys, athletes.Keys, teams.Keys), items)
    requires Younger(events, floor) && Injective(athletes) && Injective(teams) && forall x <- rows :: x.event < floor
    ensures Fits(PutEntry(), CopyEntry(ids, events, athletes, teams), rows, items, i)
  {
    var copy := CopyEntry(ids, events, athletes, teams);
    var before := rows + Map(copy, items[..i]);
    assert EntryOk(events.Keys, athletes.Keys, teams.Keys)(items[i]);
    forall x | x in before ensures !SameEntry(x, copy(items[i])) {
      if x !in rows {
        var j := Prior(copy, rows, items, i, x);
        assert EntryOk(events.Keys, athletes.Keys, teams.Keys)(items[j]);
        EntriesDiffer(ids, events, athletes, teams, items[j], items[i]);
      }
    }
    EntryFits(before, copy(items[i]));
  }

  lemma EntriesCopied(rows: seq<Entry<nat>>, next: nat, items: seq<Entry<string>>, events: map<string, nat>,
                      athletes: map<string, nat>, teams: map<string, nat>, floor: nat)
    returns (f: Filled<Entry<nat>>)
    requires floor <= next
    requires Distinct(Map(EntryId(), items)) && EntriesKeyed(items)
    requires All(EntryOk(events.Keys, athletes.Keys, teams.Keys), items)
    requires Younger(events, floor) && Injective(athletes) && Injective(teams) && forall x <- rows :: x.event < floor
    ensures Fill(MakeEntry(events, athletes, teams), PutEntry(), EntryId(), Filled(rows, map[], next), items) == Ok(f)
    ensures f.rows == rows + Map(CopyEntry(f.ids, events, athletes, teams), items) && Issues(f.ids, IdSet(EntryId(), items), floor) && next <= f.next
  {
    var copy := CopyEntry(Numbered(Map(EntryId(), items), next), events, athletes, teams);
    forall i | 0 <= i < |items| ensures MakesCopy(MakeEntry(events, athletes, teams), copy, items, next, i) {
      OwnId(EntryId(), items, next, i);
      assert EntryOk(events.Keys, athletes.Keys, teams.Keys)(items[i]);
      EntryMade(Numbered(Map(EntryId(), items), next), events, athletes, teams, items[i], next + i);
    }
    forall i | 0 <= i < |items| ensures Fits(PutEntry(), copy, rows, items, i) {
      EntryCopyFits(Numbered(Map(EntryId(), items), next), rows, items, events, athletes, teams, floor, i);
    }
    FillCopies(MakeEntry(events, athletes, teams), PutEntry(), EntryId(), copy, rows, next, items);
    NumberedIssues(EntryId(), items, next, floor);
    f := Copied(EntryId(), copy, rows, next, items);
  }

  // No entry is placed twice in a unit, and no lane is drawn twice.
  ghost predicate AssignmentsKeyed(items: seq<Assignment<string>>) {
    forall i, j :: 0 <= i < j < |items| && items[i].unit == items[j].unit ==>
      items[i].entry != items[j].entry && (items[i].lane == items[j].lane ==> items[i].lane == 0)
  }

  lemma AssignmentsDiffer(ids: map<string, nat>, units: map<string, nat>, entries: map<string, nat>,
                          x: Assignment<string>, a: Assignment<string>)
    requires Injective(units) && Injective(entries)
    requires AssignmentOk(units.Keys, entries.Keys)(x) && AssignmentOk(units.Keys, entries.Keys)(a)
    requires x.unit == a.unit ==> x.entry != a.entry && (x.lane == a.lane ==> x.lane == 0)
    ensures var copy := CopyAssignment(ids, units, entries);
            !SameSlot(copy(a))(copy(x)) && !SameLane(copy(x), copy(a))
  {}

  lemma AssignmentFits(rows: seq<Assignment<nat>>, a: Assignment<nat>)
    requires forall x <- rows :: !SameSlot(a)(x) && !SameLane(x, a)
    ensures PutAssignment()(rows, a) == Ok(rows + [a])
  {
    NotFound(SameSlot(a), rows);
  }

  lemma AssignmentCopyFits(ids: map<string, nat>, rows: seq<Assignment<nat>>, items: seq<Assignment<string>>,
                           units: map<string, nat>, entries: map<string, nat>, floor: nat, i: nat)
    requires i < |items| && AssignmentsKeyed(items) && All(AssignmentOk(units.Keys, entries.Keys), items)
    requires Younger(units, floor) && Injective(entries) && forall x <- rows :: x.unit < floor
    ensures Fits(PutAssignment(), CopyAssignment(ids, units, entries), rows, items, i)
  {
    var copy := CopyAssignment(ids, units, entries);
    var before := rows + Map(copy, items[..i]);
    assert AssignmentOk(units.Keys, entries.Keys)(items[i]);
    forall x | x in before ensures !SameSlot(copy(items[i]))(x) && !SameLane(x, copy(items[i])) {
      if x !in rows {
        var j := Prior(copy, rows, items, i, x);
        assert AssignmentOk(units.Keys, entries.Keys)(items[j]);
        AssignmentsDiffer(ids, units, entries, items[j], items[i]);
      }
    }
    AssignmentFits(before, copy(items[i]));
  }

  lemma AssignmentsCopied(rows: seq<Assignment<nat>>, next: nat, items: seq<Assignment<string>>,
                          units: map<string, nat>, entries: map<string, nat>, floor: nat)
    returns (f: Filled<Assignment<nat>>)
    requires floor <= next
    requires Distinct(Map(AssignmentId(), items)) && AssignmentsKeyed(items)
    requires forall a <- items :: a.code in ADVANCEMENT_CODES
    requires All(AssignmentOk(units.Keys, entries.Keys), items)
    requires Younger(units, floor) && Injective(entries) && forall x <- rows :: x.unit < floor
    ensures Fill(MakeAssignment(units, entries), PutAssignment(), AssignmentId(), Filled(rows, map[], next), items) == Ok(f)
    ensures f.rows == rows + Map(CopyAssignment(f.ids, units, entries), items) && Issues(f.ids, IdSet(AssignmentId(), items), floor) && next <= f.next
  {
    var copy := CopyAssignment(Numbered(Map(AssignmentId(), items), next), units, entries);
    forall i | 0 <= i < |items| ensures MakesCopy(MakeAssignment(units, entries), copy, items, next, i) {
      OwnId(AssignmentId(), items, next, i);
      assert items[i] in items;
      assert AssignmentOk(units.Keys, entries.Keys)(items[i]);
    }
    forall i | 0 <= i < |items| ensures Fits(PutAssignment(), copy, rows, items, i) {
      AssignmentCopyFits(Numbered(Map(AssignmentId(), items), next), rows, items, units, entries, floor, i);
    }
    FillCopies(MakeAssignment(units, entries), PutAssignment(), AssignmentId(), copy, rows, next, items);
    NumberedIssues(AssignmentId(), items, next, floor);
    f := Copied(AssignmentId(), copy, rows, next, items);
  }

  lemma NotFound<T>(p: T -> bool, s: seq<T>)
    requires forall i :: 0 <= i < |s| ==> !p(s[i])
    ensures FirstIndex(p, s) == |s|
  {}

  // No athlete has two results in a unit.
  ghost predicate ResultsKeyed(items: seq<Outcome<string>>) {
    forall i, j :: 0 <= i < j < |items| && items[i].unit == items[j].unit ==> items[i].athlete != items[j].athlete
  }

  lemma ResultFits(rows: seq<Outcome<nat>>, r: Outcome<nat>)
    requires forall x <- rows :: !SameResult(r)(x)
    ensures PutOutcome()(rows, r) == Ok(rows + [r])
  {
    NotFound(SameResult(r), rows);
  }

  lemma ResultCopyFits(ids: map<string, nat>, rows: seq<Outcome<nat>>, items: seq<Outcome<string>>,
                       units: map<string, nat>, athletes: map<string, nat>, floor: nat, i: nat)
    requires i < |items| && ResultsKeyed(items) && All(OutcomeOk(units.Keys, athletes.Keys), items)
    requires Younger(units, floor) && Injective(athletes) && forall x <- rows :: x.unit < floor
    ensures Fits(PutOutcome(), CopyOutcome(ids, units, athletes), rows, items, i)
  {
    var copy := CopyOutcome(ids, units, athletes);
    var before := rows + Map(copy, items[..i]);
    assert OutcomeOk(units.Keys, athletes.Keys)(items[i]);
    forall x | x in before ensures !SameResult(copy(items[i]))(x) {
      if x !in rows {
        var j := Prior(copy, rows, items, i, x);
        assert OutcomeOk(units.Keys, athletes.Keys)(items[j]);
        assert items[j].unit != items[i].unit || items[j].athlete != items[i].athlete;
      }
    }
    ResultFits(before, copy(items[i]));
  }

  lemma ResultsCopied(rows: seq<Outcome<nat>>, next: nat, items: seq<Outcome<string>>, units: map<string, nat>,
                      athletes: map<string, nat>, floor: nat)
    returns (f: Filled<Outcome<nat>>)
    requires floor <= next
    requires Distinct(Map(OutcomeId(), items)) && ResultsKeyed(items)
    requires forall r <- items :: OrElse(r.source, "manual") in RESULT_SOURCES
    requires All(OutcomeOk(units.Keys, athletes.Keys), items)
    requires Younger(units, floor) && Injective(athletes) && forall x <- rows :: x.unit < floor
    ensures Fill(MakeOutcome(units, athletes), PutOutcome(), OutcomeId(), Filled(rows, map[], next), items) == Ok(f)
    ensures f.rows == rows + Map(CopyOutcome(f.ids, units, athletes), items) && Issues(f.ids, IdSet(OutcomeId(), items), floor) && next <= f.next
  {
    var copy := CopyOutcome(Numbered(Map(OutcomeId(), items), next), units, athletes);
    forall i | 0 <= i < |items| ensures MakesCopy(MakeOutcome(units, athletes), copy, items, next, i) {
      OwnId(OutcomeId(), items, next, i);
      assert items[i] in items;
      assert OutcomeOk(units.Keys, athletes.Keys)(items[i]);
    }
    forall i | 0 <= i < |items| ensures Fits(PutOutcome(), copy, rows, items, i) {
      ResultCopyFits(Numbered(Map(OutcomeId(), items), next), rows, items, units, athletes, floor, i);
    }
    FillCopies(MakeOutcome(units, athletes), PutOutcome(), OutcomeId(), copy, rows, next, items);
    NumberedIssues(OutcomeId(), items, next, floor);
    f := Copied(OutcomeId(), copy, rows, next, items);
  }
}
