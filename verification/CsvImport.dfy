// Importing entries from a CSV file: what each row asks for, which athlete it means, and why
// committing the same file again changes nothing (internal/app/import.go).
module CsvImport {
  import opened Basics
  import opened Text
  import opened Csv
  import opened Marks

  datatype Sex = Male | Female

  // Names compare without case.
  datatype NaturalKey = NaturalKey(firstName: string, lastName: string, birthYear: int, sex: Sex)

  datatype Athlete = Athlete(firstName: string, lastName: string, birthYear: int, sex: Sex,
                             licence: Option<string>, version: int)

  datatype Event = Event(discipline: string, categories: seq<string>, standard: string, lowerIsBetter: bool)

  datatype Entry = Entry(event: nat, athlete: nat, seed: string, fails: bool)

  // Rows are only appended, so a row's position stands for its identifier. Club names are
  // unique; participants are the athletes registered for the meet.
  datatype Store = Store(athletes: seq<Athlete>, clubs: seq<string>, entries: seq<Entry>, participants: set<nat>)

  // The cells of one data row under the columns the mapping profile names.
  datatype Row = Row(firstName: string, lastName: string, birthYear: string, sex: string, club: string,
                     eventCode: string, category: string, seed: string, licence: string)

  datatype Reason =
    | NamesRequired | InvalidBirthYear | InvalidSex | MalformedEventCode | UnknownEvent | CategoryNotOffered
    | UnreadableSeed

  datatype Status = Accepted | Updated | Rejected(reason: Reason)

  // --- What a row asks for ---

  function LowerChar(c: char): char {
    if 'A' <= c <= 'Z' then 'a' + (c - 'A') else c
  }

  function Lower(s: string): string { Map(LowerChar, s) }

  datatype Request = Request(firstName: string, lastName: string, birthYear: int, sex: Sex, licence: string,
                             club: string, event: nat, seed: string)
  {
    function Key(): NaturalKey { NaturalKey(Lower(firstName), Lower(lastName), birthYear, sex) }
  }

  function KeyOf(a: Athlete): NaturalKey {
    NaturalKey(Lower(a.firstName), Lower(a.lastName), a.birthYear, a.sex)
  }

  function LastIndexOf(s: string, c: char): (i: int)
    ensures -1 <= i < |s| && (i >= 0 ==> s[i] == c)
    ensures forall k :: i < k < |s| ==> s[k] != c
  {
    if s == "" then -1 else if s[|s| - 1] == c then |s| - 1 else LastIndexOf(s[..|s| - 1], c)
  }

  // Discipline and category around the last slash, neither of them empty.
  function SplitEventCode(code: string): Option<(string, string)> {
    var i := LastIndexOf(code, '/');
    if i <= 0 || i == |code| - 1 then None else Some((code[..i], code[i + 1..]))
  }

  function Offers(discipline: string, category: string): Event -> bool {
    (e: Event) => e.discipline == discipline && category in e.categories
  }

  function ParseSex(s: string): Option<Sex> {
    if s == "M" || s == "m" then Some(Male) else if s == "W" || s == "w" then Some(Female) else None
  }

  function Trimmed(row: Row): Row {
    Row(TrimSpace(row.firstName), TrimSpace(row.lastName), TrimSpace(row.birthYear), TrimSpace(row.sex), TrimSpace(row.club),
        TrimSpace(row.eventCode), TrimSpace(row.category), TrimSpace(row.seed), TrimSpace(row.licence))
  }

  function ParseRow(events: seq<Event>, row: Row): (r: Result<Request, Reason>)
    ensures r.Ok? ==> r.value.event < |events|
  {
    ParseCells(events, Trimmed(row))
  }

  function ParseCells(events: seq<Event>, row: Row): (r: Result<Request, Reason>)
    ensures r.Ok? ==> r.value.event < |events|
  {
    if row.firstName == "" || row.lastName == "" then Err(NamesRequired) else
    var (year, readable) := Atoi(row.birthYear);
    if !readable || year <= 0 then Err(InvalidBirthYear) else
    var sex := ParseSex(row.sex);
    if sex.None? then Err(InvalidSex) else
    var code := SplitEventCode(row.eventCode);
    if code.None? then Err(MalformedEventCode) else
    var event := FirstIndex(Offers(code.value.0, code.value.1), events);
    if event == |events| then Err(UnknownEvent) else
    if row.category != "" && row.category != code.value.1 && row.category !in events[event].categories then Err(CategoryNotOffered)
    else Ok(Request(row.firstName, row.lastName, year, sex.value, row.licence, row.club, event, row.seed))
  }

  // Whether the seed misses the entry standard; None when either cannot be read.
  function FailsStandard(e: Event, seed: string): Option<bool> {
    if seed == "" || e.standard == "" then Some(false) else
    var s, std := CentiMark(seed), CentiMark(e.standard);
    if s.Err? || std.Err? then None
    else Some(if e.lowerIsBetter then s.value > std.value else s.value < std.value)
  }

  // --- Which athlete a row means ---

  function HasLicence(licence: string): Athlete -> bool { (a: Athlete) => a.licence == Some(licence) }

  function HasKey(key: NaturalKey): Athlete -> bool { (a: Athlete) => KeyOf(a) == key }

  function NewAthlete(q: Request): Athlete {
    Athlete(q.firstName, q.lastName, q.birthYear, q.sex, if q.licence == "" then None else Some(q.licence), 1)
  }

  function ByLicence(athletes: seq<Athlete>, q: Request): nat {
    if q.licence == "" then |athletes| else FirstIndex(HasLicence(q.licence), athletes)
  }

  function ByKey(athletes: seq<Athlete>, q: Request): nat { FirstIndex(HasKey(q.Key()), athletes) }

  // Licence first, then the natural key (taking the licence over when the match has none),
  // else a new athlete.
  function Resolve(athletes: seq<Athlete>, q: Request): (r: (seq<Athlete>, nat))
    ensures r.1 < |r.0|
  {
    var i, k := ByLicence(athletes, q), ByKey(athletes, q);
    if i < |athletes| then (athletes, i)
    else if k == |athletes| then (athletes + [NewAthlete(q)], k)
    else if q.licence != "" && athletes[k].licence.None? then
      (athletes[k := athletes[k].(licence := Some(q.licence), version := athletes[k].version + 1)], k)
    else (athletes, k)
  }

  predicate Entered(entries: seq<Entry>, event: nat, athlete: nat) {
    exists e <- entries :: e.event == event && e.athlete == athlete
  }

  // --- Committing ---

  function CommitRequest(events: seq<Event>, db: Store, q: Request): (Store, Status)
    requires q.event < |events|
  {
    var (athletes, a) := Resolve(db.athletes, q);
    var clubs := if q.club == "" || q.club in db.clubs then db.clubs else db.clubs + [q.club];
    var known := db.(athletes := athletes, clubs := clubs);
    var fails := FailsStandard(events[q.event], q.seed);
    if fails.None? then (known, Rejected(UnreadableSeed)) else
    var registered := known.(participants := db.participants + {a});
    if Entered(db.entries, q.event, a) then (registered, Updated)
    else (registered.(entries := db.entries + [Entry(q.event, a, q.seed, fails.value)]), Accepted)
  }

  function CommitParsed(events: seq<Event>, db: Store, q: Result<Request, Reason>): (Store, Status)
    requires q.Ok? ==> q.value.event < |events|
  {
    if q.Err? then (db, Rejected(q.error)) else CommitRequest(events, db, q.value)
  }

  function CommitRow(events: seq<Event>, db: Store, row: Row): (Store, Status) {
    CommitParsed(events, db, ParseRow(events, row))
  }

  function CommitRows(events: seq<Event>, db: Store, rows: seq<Row>): (r: (Store, seq<Status>))
    ensures |r.1| == |rows|
  {
    if rows == [] then (db, []) else
    var (before, statuses) := CommitRows(events, db, rows[..|rows| - 1]);
    var (next, status) := CommitRow(events, before, rows[|rows| - 1]);
    (next, statuses + [status])
  }

  predicate IsAccepted(s: Status) { s.Accepted? }

  predicate IsUpdated(s: Status) { s.Updated? }

  predicate IsRejected(s: Status) { s.Rejected? }

  datatype Report = Report(accepted: nat, updated: nat, rejected: nat, rows: seq<Status>)

  function ReportOf(statuses: seq<Status>): Report {
    Report(Count(IsAccepted, statuses), Count(IsUpdated, statuses), Count(IsRejected, statuses), statuses)
  }

  class Importer {
    const events: seq<Event>
    var athletes: seq<Athlete>
    var clubs: seq<string>
    var entries: seq<Entry>
    var participants: set<nat>

    function State(): Store
      reads this
    {
      Store(athletes, clubs, entries, participants)
    }

    constructor (events: seq<Event>)
      ensures this.events == events && State() == Store([], [], [], {})
    {
      this.events := events;
      athletes, clubs, entries, participants := [], [], [], {};
    }

    method ResolveAthlete(q: Request) returns (a: nat)
      modifies `athletes
      ensures (athletes, a) == Resolve(old(athletes), q)
    {
      if q.licence != "" {
        a := FirstIndex(HasLicence(q.licence), athletes);
        if a < |athletes| {
          return;
        }
      }
      a := FirstIndex(HasKey(q.Key()), athletes);
      if a < |athletes| {
        if q.licence != "" && athletes[a].licence.None? {
          var found := athletes[a];
          athletes := athletes[a := found.(licence := Some(q.licence), version := found.version + 1)];
        }
        return;
      }
      athletes := athletes + [NewAthlete(q)];
    }

    method ImportRow(row: Row) returns (status: Status)
      modifies this
      ensures (State(), status) == CommitRow(events, old(State()), row)
    {
      var q := ParseRow(events, row);
      if q.Err? {
        return Rejected(q.error);
      }
      var a := ResolveAthlete(q.value);
      if q.value.club != "" && q.value.club !in clubs {
        clubs := clubs + [q.value.club];
      }
      var existing := Entered(entries, q.value.event, a);
      var fails := FailsStandard(events[q.value.event], q.value.seed);
      if fails.None? {
        return Rejected(UnreadableSeed);
      }
      participants := participants + {a};
      if existing {
        return Updated;
      }
      entries := entries + [Entry(q.value.event, a, q.value.seed, fails.value)];
      return Accepted;
    }

    method CommitCSVImport(rows: seq<Row>) returns (report: Report)
      modifies this
      ensures var (next, statuses) := CommitRows(events, old(State()), rows);
              State() == next && report == ReportOf(statuses)
    {
      report := Report(0, 0, 0, []);
      for i := 0 to |rows|
        invariant (State(), report.rows) == CommitRows(events, old(State()), rows[..i])
        invariant report == ReportOf(report.rows)
      {
        assert rows[..i + 1][..i] == rows[..i];
        var status := ImportRow(rows[i]);
        CountOneMore(report.rows, status);
        report := report.(rows := report.rows + [status]);
        match status {
          case Accepted => report := report.(accepted := report.accepted + 1);
          case Updated => report := report.(updated := report.updated + 1);
          case Rejected(_) => report := report.(rejected := report.rejected + 1);
        }
      }
      assert rows[..|rows|] == rows;
    }
  }

  lemma CountOneMore(statuses: seq<Status>, s: Status)
    ensures var next := statuses + [s];
            && Count(IsAccepted, next) == Count(IsAccepted, statuses) + (if s.Accepted? then 1 else 0)
            && Count(IsUpdated, next) == Count(IsUpdated, statuses) + (if s.Updated? then 1 else 0)
            && Count(IsRejected, next) == Count(IsRejected, statuses) + (if s.Rejected? then 1 else 0)
  {
    CountAppend(IsAccepted, statuses, [s]);
    CountAppend(IsUpdated, statuses, [s]);
    CountAppend(IsRejected, statuses, [s]);
  }

  // --- How the athletes table grows ---

  ghost predicate Holds(athletes: seq<Athlete>, i: nat, licence: string) {
    i < |athletes| && athletes[i].licence == Some(licence)
  }

  ghost predicate Held(athletes: seq<Athlete>, licence: string) {
    exists i: nat :: Holds(athletes, i, licence)
  }

  // No earlier athlete has the same natural key.
  ghost predicate FirstOfKey(athletes: seq<Athlete>, i: nat)
    requires i < |athletes|
  {
    forall k :: 0 <= k < i ==> KeyOf(athletes[k]) != KeyOf(athletes[i])
  }

  // Athletes are added at the end, keep their key and any licence; a licence somebody holds
  // finds no new holder, and one nobody held goes to the first athlete of its key.
  ghost predicate Grows(a: seq<Athlete>, b: seq<Athlete>) {
    && |a| <= |b|
    && (forall i :: 0 <= i < |a| ==> KeyOf(b[i]) == KeyOf(a[i]))
    && (forall i: nat, l :: Holds(a, i, l) ==> Holds(b, i, l))
    && (forall i: nat, l :: Holds(b, i, l) && Held(a, l) ==> Holds(a, i, l))
    && (forall i: nat, l :: Holds(b, i, l) && !Held(a, l) ==> FirstOfKey(b, i))
  }

  lemma GrowsTransitive(a: seq<Athlete>, b: seq<Athlete>, c: seq<Athlete>)
    requires Grows(a, b) && Grows(b, c)
    ensures Grows(a, c)
  {
    forall i: nat, l | Holds(c, i, l) && Held(a, l) ensures Holds(a, i, l) {
      var j: nat :| Holds(a, j, l);
      assert Holds(b, j, l);
    }
    forall i: nat, l | Holds(c, i, l) && !Held(a, l) ensures FirstOfKey(c, i) {
      if Held(b, l) {
        assert Holds(b, i, l) && FirstOfKey(b, i);
      }
    }
  }

  lemma ResolveGrows(athletes: seq<Athlete>, q: Request)
    ensures Grows(athletes, Resolve(athletes, q).0)
  {
    var (next, a) := Resolve(athletes, q);
    var i := ByLicence(athletes, q);
    if i == |athletes| && q.licence != "" {
      forall j: nat ensures !Holds(athletes, j, q.licence) {
        assert j < |athletes| ==> !HasLicence(q.licence)(athletes[j]);
      }
    }
    forall j: nat, l | Holds(next, j, l) && !Holds(athletes, j, l)
      ensures j == a && l == q.licence && !Held(athletes, l) && FirstOfKey(next, j)
    {
      assert forall k :: 0 <= k < ByKey(athletes, q) ==> !HasKey(q.Key())(athletes[k]);
      assert KeyOf(NewAthlete(q)) == q.Key();
    }
  }

  // --- A licence belongs to one person ---

  // Every licence, in the table and in the file, goes with the one natural key it is given.
  ghost predicate LicencesNamed(athletes: seq<Athlete>, owner: map<string, NaturalKey>) {
    forall i: nat, l :: Holds(athletes, i, l) ==> l in owner && owner[l] == KeyOf(athletes[i])
  }

  ghost predicate RequestNamed(q: Request, owner: map<string, NaturalKey>) {
    q.licence != "" ==> q.licence in owner && owner[q.licence] == q.Key()
  }

  ghost predicate RowsNamed(events: seq<Event>, rows: seq<Row>, owner: map<string, NaturalKey>) {
    forall i :: 0 <= i < |rows| && ParseRow(events, rows[i]).Ok? ==> RequestNamed(ParseRow(events, rows[i]).value, owner)
  }

  lemma ResolveNamed(athletes: seq<Athlete>, q: Request, owner: map<string, NaturalKey>)
    requires LicencesNamed(athletes, owner) && RequestNamed(q, owner)
    ensures LicencesNamed(Resolve(athletes, q).0, owner)
  {
    var next := Resolve(athletes, q).0;
    forall i: nat, l | Holds(next, i, l) ensures l in owner && owner[l] == KeyOf(next[i]) {
      if Holds(athletes, i, l) {
        assert KeyOf(next[i]) == KeyOf(athletes[i]);
      } else {
        assert KeyOf(NewAthlete(q)) == q.Key();
      }
    }
  }

  // Once resolved, a request finds the same athlete in every later table, and changes nothing.
  lemma ResolveIsStable(before: seq<Athlete>, q: Request, later: seq<Athlete>, owner: map<string, NaturalKey>)
    requires Grows(Resolve(before, q).0, later)
    requires LicencesNamed(later, owner) && RequestNamed(q, owner)
    ensures Resolve(later, q) == (later, Resolve(before, q).1)
  {
    var (after, a) := Resolve(before, q);
    ResolvedHow(before, q);
    if q.licence != "" && Holds(after, a, q.licence) {
      assert Held(after, q.licence) && Holds(later, a, q.licence);
      forall j: nat | j < a ensures !HasLicence(q.licence)(later[j]) {
        assert HasLicence(q.licence)(later[j]) ==> Holds(later, j, q.licence);
      }
      FirstIs(HasLicence(q.licence), later, a);
    } else {
      FirstPersists(after, later, a);
      assert HasKey(q.Key())(later[a]);
      FirstIs(HasKey(q.Key()), later, a);
      if q.licence != "" { NeverGivenAway(after, later, q, a, owner); }
    }
  }

  // How a request was resolved: its licence's first holder, or the first athlete of its key,
  // who holds another licence if the request has one.
  lemma ResolvedHow(before: seq<Athlete>, q: Request)
    ensures var (after, a) := Resolve(before, q);
            if q.licence != "" && Holds(after, a, q.licence)
            then forall j: nat :: j < a ==> !Holds(after, j, q.licence)
            else && KeyOf(after[a]) == q.Key() && FirstOfKey(after, a)
                 && (q.licence != "" ==> after[a].licence.Some? && !Held(after, q.licence))
  {
    var (after, a) := Resolve(before, q);
    var i := ByLicence(before, q);
    if i == |before| {
      assert q.licence != "" ==> forall j: nat :: j < |before| ==> !HasLicence(q.licence)(before[j]);
      assert forall j: nat :: j < ByKey(before, q) ==> !HasKey(q.Key())(before[j]);
      assert KeyOf(NewAthlete(q)) == q.Key();
      assert a < |before| ==> HasKey(q.Key())(before[a]);
    } else {
      assert HasLicence(q.licence)(before[i]);
      assert forall j: nat :: j < i ==> !HasLicence(q.licence)(before[j]);
    }
  }

  lemma FirstPersists(after: seq<Athlete>, later: seq<Athlete>, a: nat)
    requires Grows(after, later) && a < |after| && FirstOfKey(after, a)
    ensures FirstOfKey(later, a) && KeyOf(later[a]) == KeyOf(after[a])
  {}

  // A licence that met an athlete who already had another is never given to anyone.
  lemma NeverGivenAway(after: seq<Athlete>, later: seq<Athlete>, q: Request, a: nat, owner: map<string, NaturalKey>)
    requires Grows(after, later) && LicencesNamed(later, owner) && RequestNamed(q, owner)
    requires q.licence != "" && a < |after| && KeyOf(after[a]) == q.Key() && FirstOfKey(after, a)
    requires after[a].licence.Some? && !Held(after, q.licence)
    ensures !Held(later, q.licence)
    ensures ByLicence(later, q) == |later| && later[a].licence == after[a].licence
  {
    FirstPersists(after, later, a);
    assert Holds(after, a, after[a].licence.value);
    assert Holds(later, a, after[a].licence.value);
    forall i: nat ensures Holds(later, i, q.licence) ==> i == a {}
    var i := ByLicence(later, q);
    if i < |later| { assert HasLicence(q.licence)(later[i]) && Holds(later, i, q.licence); }
  }

  // --- Importing twice ---

  ghost predicate Extends(a: Store, b: Store) {
    && Grows(a.athletes, b.athletes)
    && (forall c <- a.clubs :: c in b.clubs)
    && a.participants <= b.participants
    && (forall event: nat, athlete: nat :: Entered(a.entries, event, athlete) ==> Entered(b.entries, event, athlete))
  }

  lemma ExtendsTransitive(a: Store, b: Store, c: Store)
    requires Extends(a, b) && Extends(b, c)
    ensures Extends(a, c)
  {
    GrowsTransitive(a.athletes, b.athletes, c.athletes);
  }

  lemma RequestExtends(events: seq<Event>, db: Store, q: Request)
    requires q.event < |events|
    ensures Extends(db, CommitRequest(events, db, q).0)
  {
    ResolveGrows(db.athletes, q);
    var next := CommitRequest(events, db, q).0;
    assert forall e <- db.entries :: e in next.entries;
  }

  lemma RowExtends(events: seq<Event>, db: Store, row: Row)
    ensures Extends(db, CommitRow(events, db, row).0)
  {
    var parsed := ParseRow(events, row);
    if parsed.Ok? { RequestExtends(events, db, parsed.value); }
  }

  // What the same row reports when it is imported again.
  function Again(s: Status): Status { if s.Rejected? then s else Updated }

  lemma RequestAgain(events: seq<Event>, before: Store, q: Request, later: Store, owner: map<string, NaturalKey>)
    requires q.event < |events| && Extends(CommitRequest(events, before, q).0, later)
    requires LicencesNamed(later.athletes, owner) && RequestNamed(q, owner)
    ensures CommitRequest(events, later, q) == (later, Again(CommitRequest(events, before, q).1))
  {
    var a := Resolve(before.athletes, q).1;
    ResolveIsStable(before.athletes, q, later.athletes, owner);
    CommitLeaves(events, before, q);
    CommitFound(events, later, q, a);
  }

  // What a committed request leaves to be found.
  lemma CommitLeaves(events: seq<Event>, before: Store, q: Request)
    requires q.event < |events|
    ensures var (after, status) := CommitRequest(events, before, q);
            var a := Resolve(before.athletes, q).1;
            && (q.club != "" ==> q.club in after.clubs)
            && (FailsStandard(events[q.event], q.seed).Some? ==> a in after.participants && Entered(after.entries, q.event, a))
  {
    var (after, status) := CommitRequest(events, before, q);
    if status.Accepted? { assert after.entries[|before.entries|] in after.entries; }
  }

  lemma CommitFound(events: seq<Event>, db: Store, q: Request, a: nat)
    requires q.event < |events| && Resolve(db.athletes, q) == (db.athletes, a)
    requires q.club != "" ==> q.club in db.clubs
    requires FailsStandard(events[q.event], q.seed).Some? ==> a in db.participants && Entered(db.entries, q.event, a)
    ensures CommitRequest(events, db, q)
         == (db, if FailsStandard(events[q.event], q.seed).None? then Rejected(UnreadableSeed) else Updated)
  {
    if a in db.participants { assert db.participants + {a} == db.participants; }
  }

  lemma RowAgain(events: seq<Event>, before: Store, row: Row, later: Store, owner: map<string, NaturalKey>)
    requires Extends(CommitRow(events, before, row).0, later)
    requires LicencesNamed(later.athletes, owner)
    requires ParseRow(events, row).Ok? ==> RequestNamed(ParseRow(events, row).value, owner)
    ensures CommitRow(events, later, row) == (later, Again(CommitRow(events, before, row).1))
  {
    ParsedAgain(events, before, ParseRow(events, row), later, owner);
  }

  lemma ParsedAgain(events: seq<Event>, before: Store, q: Result<Request, Reason>, later: Store,
                    owner: map<string, NaturalKey>)
    requires q.Ok? ==> q.value.event < |events|
    requires Extends(CommitParsed(events, before, q).0, later) && LicencesNamed(later.athletes, owner)
    requires q.Ok? ==> RequestNamed(q.value, owner)
    ensures CommitParsed(events, later, q) == (later, Again(CommitParsed(events, before, q).1))
  {
    if q.Ok? { RequestAgain(events, before, q.value, later, owner); }
  }

  lemma RowNamed(events: seq<Event>, db: Store, row: Row, owner: map<string, NaturalKey>)
    requires LicencesNamed(db.athletes, owner)
    requires ParseRow(events, row).Ok? ==> RequestNamed(ParseRow(events, row).value, owner)
    ensures LicencesNamed(CommitRow(events, db, row).0.athletes, owner)
  {
    if ParseRow(events, row).Ok? { ResolveNamed(db.athletes, ParseRow(events, row).value, owner); }
  }

  lemma {:induction false} RowsNamedAfter(events: seq<Event>, db: Store, rows: seq<Row>, owner: map<string, NaturalKey>)
    requires LicencesNamed(db.athletes, owner) && RowsNamed(events, rows, owner)
    ensures LicencesNamed(CommitRows(events, db, rows).0.athletes, owner)
  {
    if rows != [] {
      var n := |rows| - 1;
      RowsNamedAfter(events, db, rows[..n], owner);
      RowNamed(events, CommitRows(events, db, rows[..n]).0, rows[n], owner);
    }
  }

  lemma {:induction false} RowsAgain(events: seq<Event>, db: Store, rows: seq<Row>, later: Store,
                                     owner: map<string, NaturalKey>)
    requires Extends(CommitRows(events, db, rows).0, later)
    requires LicencesNamed(later.athletes, owner) && RowsNamed(events, rows, owner)
    ensures CommitRows(events, later, rows) == (later, Map(Again, CommitRows(events, db, rows).1))
  {
    if rows != [] {
      var n := |rows| - 1;
      var (before, statuses) := CommitRows(events, db, rows[..n]);
      var (after, status) := CommitRow(events, before, rows[n]);
      RowExtends(events, before, rows[n]);
      ExtendsTransitive(before, after, later);
      RowsAgain(events, db, rows[..n], later, owner);
      RowAgain(events, before, rows[n], later, owner);
      MapLast(Again, statuses + [status]);
      assert (statuses + [status])[..n] == statuses;
    }
  }

  // Committing the same file again leaves athletes, clubs, registrations and entries as they were,
  // accepts no row, reports each earlier accepted or updated row as updated, and rejects the same rows for the same reason.
  // The one thing asked is that a licence number names one person in the table and the file.
  lemma ImportIsIdempotent(events: seq<Event>, db: Store, rows: seq<Row>, owner: map<string, NaturalKey>)
    requires LicencesNamed(db.athletes, owner) && RowsNamed(events, rows, owner)
    ensures var (after, statuses) := CommitRows(events, db, rows);
            CommitRows(events, after, rows) == (after, Map(Again, statuses))
  {
    RowsNamedAfter(events, db, rows, owner);
    RowsAgain(events, db, rows, CommitRows(events, db, rows).0, owner);
  }

  // --- Without that, it is not ---

  const SPRINTS: seq<Event> := [Event("60", ["W12"], "", true), Event("80", ["W12"], "", true)]

  function RunnerRow(last: string, licence: string, distance: string): Row {
    Row("A", last, "2013", "W", "", distance + "/W12", "", "", licence)
  }

  function Runner(last: string, licence: string, event: nat): Request {
    Request("A", last, 2013, Female, licence, "", event, "")
  }

  lemma ReadYear()
    ensures Atoi("2013") == (2013, true)
  {
    assert "2013"[..3] == "201" && "201"[..2] == "20" && "20"[..1] == "2" && "2"[..0] == "";
    assert Csv.ReadDigits("2") == Some(2);
    assert Csv.ReadDigits("20") == Some(20);
    assert Csv.ReadDigits("201") == Some(201);
  }

  lemma ReadEvent(distance: string, event: nat)
    requires (distance == "60" && event == 0) || (distance == "80" && event == 1)
    ensures SplitEventCode(distance + "/W12") == Some((distance, "W12"))
    ensures FirstIndex(Offers(distance, "W12"), SPRINTS) == event
  {
    var code := distance + "/W12";
    assert code[..2] == distance && code[3..] == "W12";
    assert code[2] == '/' && code[3] == 'W' && code[4] == '1' && code[5] == '2';
    assert LastIndexOf(code, '/') == 2;
    FirstIs(Offers(distance, "W12"), SPRINTS, event);
  }

  lemma ReadRunner(last: string, licence: string, distance: string, event: nat)
    requires |last| == 1 && !IsSpace(last[0]) && |licence| == 1 && !IsSpace(licence[0])
    requires (distance == "60" && event == 0) || (distance == "80" && event == 1)
    ensures ParseRow(SPRINTS, RunnerRow(last, licence, distance)) == Ok(Runner(last, licence, event))
  {
    ReadYear();
    ReadEvent(distance, event);
    var code := distance + "/W12";
    TrimmedRunner(last, licence, distance);
    TrimmedTexts();
    ParseParts(SPRINTS, RunnerRow(last, licence, distance), "2013", 2013, Female, code, distance, "W12", event);
  }

  lemma ParseParts(events: seq<Event>, row: Row, digits: string, year: int, sex: Sex, code: string,
                   discipline: string, category: string, event: nat)
    requires TrimSpace(row.firstName) == row.firstName != "" && TrimSpace(row.lastName) == row.lastName != ""
    requires TrimSpace(row.birthYear) == digits && Atoi(digits) == (year, true) && year > 0
    requires ParseSex(TrimSpace(row.sex)) == Some(sex)
    requires TrimSpace(row.eventCode) == code && SplitEventCode(code) == Some((discipline, category))
    requires FirstIndex(Offers(discipline, category), events) == event < |events|
    requires TrimSpace(row.category) == ""
    ensures ParseRow(events, row)
         == Ok(Request(row.firstName, row.lastName, year, sex, TrimSpace(row.licence), TrimSpace(row.club), event,
                       TrimSpace(row.seed)))
  {}

  lemma TrimmedRunner(last: string, licence: string, distance: string)
    requires |last| == 1 && !IsSpace(last[0]) && |licence| == 1 && !IsSpace(licence[0])
    requires |distance| == 2 && !IsSpace(distance[0])
    ensures TrimSpace(distance + "/W12") == distance + "/W12"
    ensures TrimSpace(last) == last && TrimSpace(licence) == licence
  {
    Untrimmed(distance + "/W12");
    Untrimmed(last);
    Untrimmed(licence);
  }

  lemma TrimmedTexts()
    ensures TrimSpace("2013") == "2013" && TrimSpace("A") == "A" && TrimSpace("W") == "W"
  {
    Untrimmed("2013");
    Untrimmed("A");
    Untrimmed("W");
  }

  lemma Untrimmed(s: string)
    requires s != "" && !IsSpace(s[0]) && !IsSpace(s[|s| - 1])
    ensures TrimSpace(s) == s
  {}

  const X9: Athlete := Athlete("A", "X", 2013, Female, Some("9"), 1)
  const Y1: Athlete := Athlete("A", "Y", 2013, Female, Some("1"), 1)

  lemma DifferentKeys()
    ensures KeyOf(X9) != KeyOf(Y1) && Runner("X", "1", 0).Key() == KeyOf(X9) && Runner("Y", "1", 1).Key() == KeyOf(Y1)
  {
    assert Lower("X")[0] != Lower("Y")[0];
  }

  // One licence on two names: the first import takes the row for X by name, the second takes
  // it by the licence Y has meanwhile been given, and enters Y in X's event.
  lemma SharedLicenceIsNotIdempotent()
    ensures var db := Store([X9], [], [], {});
            var rows := [RunnerRow("X", "1", "60"), RunnerRow("Y", "1", "80")];
            var (after, first) := CommitRows(SPRINTS, db, rows);
            && first == [Accepted, Accepted] && after.entries == [Entry(0, 0, "", false), Entry(1, 1, "", false)]
            && CommitRow(SPRINTS, after, rows[0]).1 == Accepted
  {
    var db := Store([X9], [], [], {});
    var x, y := RunnerRow("X", "1", "60"), RunnerRow("Y", "1", "80");
    ReadRunner("X", "1", "60", 0);
    ReadRunner("Y", "1", "80", 1);
    var one := Store([X9], [], [Entry(0, 0, "", false)], {0});
    var two := Store([X9, Y1], [], [Entry(0, 0, "", false), Entry(1, 1, "", false)], {0, 1});
    CommittedApart(db, one, two);
    CommitTwo(SPRINTS, db, x, y);
  }

  lemma CommitTwo(events: seq<Event>, db: Store, x: Row, y: Row)
    ensures var (one, s) := CommitRow(events, db, x);
            var (two, t) := CommitRow(events, one, y);
            CommitRows(events, db, [x, y]) == (two, [s, t])
  {
    assert [x, y][..1] == [x] && [x][..0] == [];
    var (one, s) := CommitRow(events, db, x);
    assert CommitRows(events, db, []) == (db, []);
    assert CommitRows(events, db, [x]) == (one, [s]) by { assert [] + [s] == [s]; }
    assert [s] + [CommitRow(events, one, y).1] == [s, CommitRow(events, one, y).1];
  }

  lemma CommittedApart(db: Store, one: Store, two: Store)
    requires db == Store([X9], [], [], {})
    requires one == Store([X9], [], [Entry(0, 0, "", false)], {0})
    requires two == Store([X9, Y1], [], [Entry(0, 0, "", false), Entry(1, 1, "", false)], {0, 1})
    ensures CommitRequest(SPRINTS, db, Runner("X", "1", 0)) == (one, Accepted)
    ensures CommitRequest(SPRINTS, one, Runner("Y", "1", 1)) == (two, Accepted)
    ensures CommitRequest(SPRINTS, two, Runner("X", "1", 0)).1 == Accepted
  {
    ResolvedApart();
    assert db.entries + [Entry(0, 0, "", false)] == one.entries && db.participants + {0} == one.participants;
    assert one.entries + [Entry(1, 1, "", false)] == two.entries && one.participants + {1} == two.participants;
  }

  lemma ResolvedApart()
    ensures Resolve([X9], Runner("X", "1", 0)) == ([X9], 0)
    ensures Resolve([X9], Runner("Y", "1", 1)) == ([X9, Y1], 1)
    ensures Resolve([X9, Y1], Runner("X", "1", 0)) == ([X9, Y1], 1)
  {
    DifferentKeys();
    assert HasKey(KeyOf(X9))(X9) && !HasKey(KeyOf(Y1))(X9);
    assert !HasLicence("1")(X9) && HasLicence("1")(Y1);
    FirstIs(HasKey(KeyOf(X9)), [X9], 0);
    FirstIs(HasLicence("1"), [X9, Y1], 1);
    assert [X9] + [Y1] == [X9, Y1];
  }
}
