// What a row of a CSV file asks for and what committing it stores, cell by cell.
module CsvRows {
  import opened Basics
  import opened Text
  import opened Csv
  import opened Marks
  import opened CsvImport

  // The code names the discipline and, after its last slash, the category.
  ghost predicate Codes(code: string, discipline: string, category: string) {
    discipline != "" && category != "" && '/' !in category && code == discipline + "/" + category
  }

  lemma CodeExactly(code: string, discipline: string, category: string)
    ensures SplitEventCode(code) == Some((discipline, category)) <==> Codes(code, discipline, category)
  {
    if Codes(code, discipline, category) { CodeSplits(code, discipline, category); }
    if SplitEventCode(code) == Some((discipline, category)) { SplitCodes(code, discipline, category); }
  }

  lemma CodeSplits(code: string, discipline: string, category: string)
    requires Codes(code, discipline, category)
    ensures SplitEventCode(code) == Some((discipline, category))
  {
    var i := LastIndexOf(code, '/');
    assert code[|discipline|] == '/';
    forall k | |discipline| < k < |code| ensures code[k] != '/' { assert code[k] == category[k - |discipline| - 1]; }
    assert i == |discipline|;
    assert code[..i] == discipline && code[i + 1..] == category;
  }

  lemma SplitCodes(code: string, discipline: string, category: string)
    requires SplitEventCode(code) == Some((discipline, category))
    ensures Codes(code, discipline, category)
  {
    var i := LastIndexOf(code, '/');
    assert code == code[..i] + [code[i]] + code[i + 1..];
    assert '/' !in code[i + 1..];
  }

  // The first event of this discipline open to this category.
  ghost predicate IsFirstEvent(events: seq<Event>, event: nat, discipline: string, category: string) {
    && event < |events| && events[event].discipline == discipline && category in events[event].categories
    && forall k :: 0 <= k < event ==> !(events[k].discipline == discipline && category in events[k].categories)
  }

  // Every cell without the blanks around it: both names, a birth year above zero, M or W, the event,
  // and if a category is given, that of the code or another the event is open to.
  ghost predicate Asks(events: seq<Event>, row: Row, q: Request) {
    Person(row, q) && Extras(row, q) && exists discipline: string, category: string :: Enters(events, row, q.event, discipline, category)
  }

  predicate Person(row: Row, q: Request) {
    && q.firstName == TrimSpace(row.firstName) && q.firstName != ""
    && q.lastName == TrimSpace(row.lastName) && q.lastName != ""
    && Atoi(TrimSpace(row.birthYear)) == (q.birthYear, true) && q.birthYear > 0
    && var sex := TrimSpace(row.sex); if q.sex.Male? then sex == "M" || sex == "m" else sex == "W" || sex == "w"
  }

  predicate Extras(row: Row, q: Request) {
    q.licence == TrimSpace(row.licence) && q.club == TrimSpace(row.club) && q.seed == TrimSpace(row.seed)
  }

  ghost predicate Enters(events: seq<Event>, row: Row, event: nat, discipline: string, category: string) {
    && Codes(TrimSpace(row.eventCode), discipline, category) && IsFirstEvent(events, event, discipline, category)
    && var wanted := TrimSpace(row.category); wanted == "" || wanted == category || wanted in events[event].categories
  }

  lemma SexMeans(cell: string, sex: Sex)
    ensures ParseSex(cell) == Some(sex) <==> if sex.Male? then cell == "M" || cell == "m" else cell == "W" || cell == "w"
  {}

  lemma EventMeans(events: seq<Event>, discipline: string, category: string, event: nat)
    ensures IsFirstEvent(events, event, discipline, category)
            <==> event < |events| && FirstIndex(Offers(discipline, category), events) == event
  {
    if IsFirstEvent(events, event, discipline, category) { FirstIs(Offers(discipline, category), events, event); }
  }

  // What trimmed cells are read as, when they are.
  lemma ReadParts(events: seq<Event>, row: Row)
    requires ParseCells(events, row).Ok?
    ensures var q, code := ParseCells(events, row).value, SplitEventCode(row.eventCode);
            && q.licence == row.licence && q.club == row.club && q.seed == row.seed
            && q.firstName == row.firstName != "" && q.lastName == row.lastName != ""
            && Atoi(row.birthYear) == (q.birthYear, true) && q.birthYear > 0 && ParseSex(row.sex) == Some(q.sex)
            && code.Some? && FirstIndex(Offers(code.value.0, code.value.1), events) == q.event < |events|
            && (row.category == "" || row.category == code.value.1 || row.category in events[q.event].categories)
  {}

  lemma RowAsks(events: seq<Event>, row: Row)
    ensures ParseRow(events, row).Ok? ==> Asks(events, row, ParseRow(events, row).value)
  {
    if ParseRow(events, row).Ok? {
      var q := ParseRow(events, row).value;
      ReadParts(events, Trimmed(row));
      var (discipline, category) := SplitEventCode(TrimSpace(row.eventCode)).value;
      SexMeans(TrimSpace(row.sex), q.sex);
      CodeExactly(TrimSpace(row.eventCode), discipline, category);
      EventMeans(events, discipline, category, q.event);
      assert Enters(events, row, q.event, discipline, category);
    }
  }

  lemma PartsRead(events: seq<Event>, row: Row, q: Request, discipline: string, category: string)
    requires q.licence == row.licence && q.club == row.club && q.seed == row.seed
    requires q.firstName == row.firstName != "" && q.lastName == row.lastName != ""
    requires Atoi(row.birthYear) == (q.birthYear, true) && q.birthYear > 0 && ParseSex(row.sex) == Some(q.sex)
    requires SplitEventCode(row.eventCode) == Some((discipline, category))
    requires FirstIndex(Offers(discipline, category), events) == q.event < |events|
    requires row.category == "" || row.category == category || row.category in events[q.event].categories
    ensures ParseCells(events, row) == Ok(q)
  {}

  // A request a row asks for is what the row is read as.
  lemma AskedIsRead(events: seq<Event>, row: Row, q: Request)
    requires Asks(events, row, q)
    ensures ParseRow(events, row) == Ok(q)
  {
    var discipline: string, category: string :| Enters(events, row, q.event, discipline, category);
    SexMeans(TrimSpace(row.sex), q.sex);
    CodeExactly(TrimSpace(row.eventCode), discipline, category);
    EventMeans(events, discipline, category, q.event);
    PartsRead(events, Trimmed(row), q, discipline, category);
  }

  predicate Named(row: Row) { row.firstName != "" && row.lastName != "" }

  predicate Born(row: Row) { Atoi(row.birthYear).1 && Atoi(row.birthYear).0 > 0 }

  predicate Sexed(row: Row) { row.sex == "M" || row.sex == "m" || row.sex == "W" || row.sex == "w" }

  ghost predicate Coded(row: Row) { exists discipline: string, category: string :: Codes(row.eventCode, discipline, category) }

  ghost predicate Known(events: seq<Event>, row: Row) {
    exists discipline: string, category: string, event: nat ::
      Codes(row.eventCode, discipline, category) && IsFirstEvent(events, event, discipline, category)
  }

  ghost predicate FirstWrong(events: seq<Event>, cells: Row, reason: Reason) {
    match reason
    case NamesRequired => !Named(cells)
    case InvalidBirthYear => Named(cells) && !Born(cells)
    case InvalidSex => Named(cells) && Born(cells) && !Sexed(cells)
    case MalformedEventCode => Named(cells) && Born(cells) && Sexed(cells) && !Coded(cells)
    case UnknownEvent => Named(cells) && Born(cells) && Sexed(cells) && Coded(cells) && !Known(events, cells)
    case CategoryNotOffered => Named(cells) && Born(cells) && Sexed(cells) && Known(events, cells) && cells.category != ""
    case UnreadableSeed => false
  }

  // A row that is refused is refused for the first thing wrong with it.
  lemma RefusedFor(events: seq<Event>, row: Row)
    requires ParseRow(events, row).Err?
    ensures FirstWrong(events, Trimmed(row), ParseRow(events, row).error)
  {
    var cells := Trimmed(row);
    CodedMeans(cells.eventCode);
    if SplitEventCode(cells.eventCode).Some? {
      var (discipline, category) := SplitEventCode(cells.eventCode).value;
      KnownMeans(events, cells, discipline, category);
    }
    CellsRefused(events, cells);
  }

  lemma CellsRefused(events: seq<Event>, cells: Row)
    requires ParseCells(events, cells).Err?
    ensures var code := SplitEventCode(cells.eventCode);
            match ParseCells(events, cells).error
            case NamesRequired => !Named(cells)
            case InvalidBirthYear => Named(cells) && !Born(cells)
            case InvalidSex => Named(cells) && Born(cells) && !Sexed(cells)
            case MalformedEventCode => Named(cells) && Born(cells) && Sexed(cells) && code.None?
            case UnknownEvent =>
              && Named(cells) && Born(cells) && Sexed(cells) && code.Some?
              && FirstIndex(Offers(code.value.0, code.value.1), events) == |events|
            case CategoryNotOffered =>
              && Named(cells) && Born(cells) && Sexed(cells) && code.Some? && cells.category != ""
              && FirstIndex(Offers(code.value.0, code.value.1), events) < |events|
            case UnreadableSeed => false
  {}

  lemma CodedMeans(code: string)
    ensures SplitEventCode(code).Some? <==> exists discipline: string, category: string :: Codes(code, discipline, category)
  {
    if SplitEventCode(code).Some? { CodeExactly(code, SplitEventCode(code).value.0, SplitEventCode(code).value.1); }
    if discipline: string, category: string :| Codes(code, discipline, category) { CodeExactly(code, discipline, category); }
  }

  lemma KnownMeans(events: seq<Event>, row: Row, discipline: string, category: string)
    requires SplitEventCode(row.eventCode) == Some((discipline, category))
    ensures Known(events, row) <==> FirstIndex(Offers(discipline, category), events) < |events|
  {
    CodeExactly(row.eventCode, discipline, category);
    var first := FirstIndex(Offers(discipline, category), events);
    EventMeans(events, discipline, category, first);
    if Known(events, row) {
      var d: string, c: string, event: nat :| Codes(row.eventCode, d, c) && IsFirstEvent(events, event, d, c);
      CodeExactly(row.eventCode, d, c);
      EventMeans(events, d, c, event);
    }
  }

  // --- Who is meant ---

  predicate SameLetter(a: char, b: char) {
    a == b || ('A' <= a <= 'Z' && b as int == a as int + 32) || ('A' <= b <= 'Z' && a as int == b as int + 32)
  }

  // The same name, letter case aside.
  predicate SameName(a: string, b: string) {
    |a| == |b| && forall i :: 0 <= i < |a| ==> SameLetter(a[i], b[i])
  }

  lemma LowerMeans(a: string, b: string)
    ensures Lower(a) == Lower(b) <==> SameName(a, b)
  {
    if Lower(a) == Lower(b) {
      assert |Lower(a)| == |a| && |Lower(b)| == |b|;
      forall i | 0 <= i < |a| ensures SameLetter(a[i], b[i]) { assert Lower(a)[i] == Lower(b)[i]; }
    }
    if SameName(a, b) {
      forall i | 0 <= i < |a| ensures Lower(a)[i] == Lower(b)[i] { assert SameLetter(a[i], b[i]); }
      assert Lower(a) == Lower(b);
    }
  }

  predicate SamePerson(a: Athlete, q: Request) {
    SameName(a.firstName, q.firstName) && SameName(a.lastName, q.lastName) && a.birthYear == q.birthYear && a.sex == q.sex
  }

  lemma KeyMeans(a: Athlete, q: Request)
    ensures KeyOf(a) == q.Key() <==> SamePerson(a, q)
  {
    LowerMeans(a.firstName, q.firstName);
    LowerMeans(a.lastName, q.lastName);
  }

  predicate Licensed(a: Athlete, licence: string) { licence != "" && a.licence == Some(licence) }

  // The first holder of the licence; without one the first athlete of the name, born that year, of
  // that sex, who takes a licence over if he has none; without one a new athlete with the row's data.
  ghost predicate Meant(before: seq<Athlete>, after: seq<Athlete>, q: Request, a: nat) {
    if exists h <- before :: Licensed(h, q.licence) then
      && after == before && a < |before| && Licensed(before[a], q.licence)
      && forall k :: 0 <= k < a ==> !Licensed(before[k], q.licence)
    else if exists p <- before :: SamePerson(p, q) then
      && a < |before| && SamePerson(before[a], q) && (forall k :: 0 <= k < a ==> !SamePerson(before[k], q))
      && after == if q.licence != "" && before[a].licence.None?
                  then before[a := before[a].(licence := Some(q.licence), version := before[a].version + 1)]
                  else before
    else
      && a == |before|
      && after == before + [Athlete(q.firstName, q.lastName, q.birthYear, q.sex,
                                    if q.licence == "" then None else Some(q.licence), 1)]
  }

  lemma FirstLicensed(athletes: seq<Athlete>, q: Request)
    ensures var i := ByLicence(athletes, q);
            && (i < |athletes| <==> exists h <- athletes :: Licensed(h, q.licence))
            && (i < |athletes| ==> Licensed(athletes[i], q.licence) && forall k :: 0 <= k < i ==> !Licensed(athletes[k], q.licence))
  {
    var i := ByLicence(athletes, q);
    if i < |athletes| { assert athletes[i] in athletes && HasLicence(q.licence)(athletes[i]); }
    if q.licence != "" {
      forall k | 0 <= k < i ensures !Licensed(athletes[k], q.licence) { assert !HasLicence(q.licence)(athletes[k]); }
    }
  }

  lemma FirstPerson(athletes: seq<Athlete>, q: Request)
    ensures var i := ByKey(athletes, q);
            && (i < |athletes| <==> exists p <- athletes :: SamePerson(p, q))
            && (i < |athletes| ==> SamePerson(athletes[i], q) && forall k :: 0 <= k < i ==> !SamePerson(athletes[k], q))
  {
    var i := ByKey(athletes, q);
    forall k | 0 <= k < |athletes| ensures HasKey(q.Key())(athletes[k]) <==> SamePerson(athletes[k], q) {
      KeyMeans(athletes[k], q);
    }
    if i < |athletes| { assert athletes[i] in athletes; }
    forall k | 0 <= k < i ensures !SamePerson(athletes[k], q) { assert !HasKey(q.Key())(athletes[k]); }
  }

  lemma ResolveMeans(athletes: seq<Athlete>, q: Request)
    ensures Meant(athletes, Resolve(athletes, q).0, q, Resolve(athletes, q).1)
  {
    FirstLicensed(athletes, q);
    FirstPerson(athletes, q);
  }

  // --- What is stored ---

  // The seed is worse than the event's standard, if there are both.
  ghost predicate Misses(e: Event, seed: string) {
    && seed != "" && e.standard != "" && CentiMark(seed).Ok? && CentiMark(e.standard).Ok?
    && if e.lowerIsBetter then CentiMark(seed).value > CentiMark(e.standard).value
       else CentiMark(seed).value < CentiMark(e.standard).value
  }

  // Both are given and one of them is not a mark.
  predicate Unreadable(e: Event, seed: string) {
    seed != "" && e.standard != "" && (CentiMark(seed).Err? || CentiMark(e.standard).Err?)
  }

  // Committing a row that asks for something: the athlete meant, the club, and unless the seed cannot
  // be compared, the registration and one entry with the seed and whether it misses the standard.
  lemma CommitStores(events: seq<Event>, db: Store, row: Row, q: Request) returns (a: nat)
    requires Asks(events, row, q)
    ensures var (next, status) := CommitRow(events, db, row);
            var e := events[q.event];
            var entered := exists x <- db.entries :: x.event == q.event && x.athlete == a;
            && Meant(db.athletes, next.athletes, q, a)
            && next.clubs == db.clubs + (if q.club == "" || q.club in db.clubs then [] else [q.club])
            && next.participants == (if Unreadable(e, q.seed) then db.participants else db.participants + {a})
            && (if Unreadable(e, q.seed) || entered then next.entries == db.entries
                else |next.entries| == |db.entries| + 1 && next.entries[..|db.entries|] == db.entries
                     && var x := next.entries[|db.entries|];
                        x.event == q.event && x.athlete == a && x.seed == q.seed && (x.fails <==> Misses(e, q.seed)))
            && status == (if Unreadable(e, q.seed) then Rejected(UnreadableSeed) else if entered then Updated else Accepted)
  {
    AskedIsRead(events, row, q);
    ResolveMeans(db.athletes, q);
    StandardMeans(events[q.event], q.seed);
    a := Resolve(db.athletes, q).1;
    RequestStores(events, db, q, FailsStandard(events[q.event], q.seed));
  }

  lemma StandardMeans(e: Event, seed: string)
    ensures FailsStandard(e, seed) == if Unreadable(e, seed) then None else Some(Misses(e, seed))
  {}

  lemma RequestStores(events: seq<Event>, db: Store, q: Request, fails: Option<bool>)
    requires q.event < |events| && fails == FailsStandard(events[q.event], q.seed)
    ensures var (next, status) := CommitRequest(events, db, q);
            var (athletes, a) := Resolve(db.athletes, q);
            var entered := exists x <- db.entries :: x.event == q.event && x.athlete == a;
            && next.athletes == athletes
            && next.clubs == db.clubs + (if q.club == "" || q.club in db.clubs then [] else [q.club])
            && next.participants == (if fails.None? then db.participants else db.participants + {a})
            && next.entries == db.entries + (if fails.None? || entered then [] else [Entry(q.event, a, q.seed, fails.value)])
            && status == (if fails.None? then Rejected(UnreadableSeed) else if entered then Updated else Accepted)
  {}
}
