// The preview of a CSV file: each row is looked up against the tables as they are, none of the
// file's own rows among them.
module CsvPreview {
  import opened Basics
  import opened CsvImport
  import opened CsvRepeats

  // The preview looks an athlete up but creates and changes nothing.
  function PreviewRequest(events: seq<Event>, db: Store, q: Request): Status
    requires q.event < |events|
  {
    var i := ByLicence(db.athletes, q);
    var a := if i < |db.athletes| then i else ByKey(db.athletes, q);
    if FailsStandard(events[q.event], q.seed).None? then Rejected(UnreadableSeed)
    else if a < |db.athletes| && Entered(db.entries, q.event, a) then Updated else Accepted
  }

  function PreviewRow(events: seq<Event>, db: Store, row: Row): Status {
    var q := ParseRow(events, row);
    if q.Err? then Rejected(q.error) else PreviewRequest(events, db, q.value)
  }

  // No entry points past the athletes table.
  ghost predicate EntriesResolve(db: Store) {
    forall e <- db.entries :: e.athlete < |db.athletes|
  }

  // Whatever the tables hold by then, a row is rejected in the preview exactly when the commit
  // rejects it, and for the same reason; on the tables previewed the whole answer agrees.
  lemma PreviewForetells(events: seq<Event>, db: Store, later: Store, row: Row)
    requires EntriesResolve(db)
    ensures PreviewRow(events, db, row).Rejected? <==> CommitRow(events, later, row).1.Rejected?
    ensures PreviewRow(events, db, row).Rejected? ==> PreviewRow(events, db, row) == CommitRow(events, later, row).1
    ensures PreviewRow(events, db, row) == CommitRow(events, db, row).1
  {
    var q := ParseRow(events, row);
    if q.Ok? { PreviewForetellsRequest(events, db, later, q.value); }
  }

  lemma PreviewForetellsRequest(events: seq<Event>, db: Store, later: Store, q: Request)
    requires EntriesResolve(db) && q.event < |events|
    ensures PreviewRequest(events, db, q).Rejected? <==> CommitRequest(events, later, q).1.Rejected?
    ensures PreviewRequest(events, db, q).Rejected? ==> PreviewRequest(events, db, q) == CommitRequest(events, later, q).1
    ensures PreviewRequest(events, db, q) == CommitRequest(events, db, q).1
  {}

  // Row by row the preview cannot see what earlier rows of the file will have created: a
  // repeated row is previewed as accepted and committed as updated.
  lemma PreviewMissesRepeats(events: seq<Event>, db: Store, row: Row, owner: map<string, NaturalKey>)
    requires EntriesResolve(db) && LicencesNamed(db.athletes, owner) && RowsNamed(events, [row], owner)
    requires PreviewRow(events, db, row).Accepted?
    ensures CommitRows(events, db, [row, row]).1 == [Accepted, Updated]
  {
    PreviewForetells(events, db, db, row);
    var once := CommitRow(events, db, row).0;
    assert [row][0] == row;
    RowNamed(events, db, row, owner);
    RowAgain(events, db, row, once, owner);
    CommitTwo(events, db, row, row);
  }

  // --- The whole file ---

  function PreviewOf(events: seq<Event>, db: Store): Row -> Status { (row: Row) => PreviewRow(events, db, row) }

  // A file that has one entry twice, against empty tables.
  lemma RepeatedRow()
    ensures var db, row := Store([], [], [], {}), RunnerRow("X", "1", "60");
            && Map(PreviewOf(SPRINTS, db), [row, row]) == [Accepted, Accepted]
            && CommitRows(SPRINTS, db, [row, row]).1 == [Accepted, Updated]
  {
    var db, row := Store([], [], [], {}), RunnerRow("X", "1", "60");
    ReadRunner("X", "1", "60", 0);
    assert PreviewRow(SPRINTS, db, row) == Accepted;
    assert Map(PreviewOf(SPRINTS, db), [row, row]) == [Accepted, Accepted];
    var owner := map["1" := Runner("X", "1", 0).Key()];
    assert RowsNamed(SPRINTS, [row], owner);
    PreviewMissesRepeats(SPRINTS, db, row, owner);
  }

  // Both rows are previewed as accepted and enter one athlete in one event.
  ghost predicate SameEntry(events: seq<Event>, db: Store, rows: seq<Row>, i: nat, j: nat)
    requires i < |rows| && j < |rows|
  {
    && PreviewRow(events, db, rows[i]).Accepted? && PreviewRow(events, db, rows[j]).Accepted?
    && var p, q := ParseRow(events, rows[i]).value, ParseRow(events, rows[j]).value;
       p.event == q.event && CommittedFor(events, db, rows, i, p) == CommittedFor(events, db, rows, j, q)
  }

  // Where the preview finds an athlete, if it does.
  function Lookup(athletes: seq<Athlete>, q: Request): nat {
    var i := ByLicence(athletes, q);
    if i < |athletes| then i else ByKey(athletes, q)
  }

  // An athlete known beforehand is the one committed for, however far the file has come; an
  // unknown one is committed as somebody new.
  lemma LookupAgrees(athletes: seq<Athlete>, later: seq<Athlete>, q: Request, owner: map<string, NaturalKey>)
    requires Grows(athletes, later) && LicencesNamed(later, owner) && RequestNamed(q, owner)
    ensures var p, a := Lookup(athletes, q), Resolve(later, q).1;
            if p < |athletes| then a == p else a >= |athletes|
  {
    var i := ByLicence(athletes, q);
    if i < |athletes| {
      HeldBefore(athletes, q, i);
      HolderFound(athletes, q, later, i);
    } else {
      if q.licence != "" { NotHeldBefore(athletes, q); }
      KeyAgrees(athletes, later, q, owner);
    }
  }

  lemma HeldBefore(athletes: seq<Athlete>, q: Request, i: nat)
    requires i == ByLicence(athletes, q) < |athletes|
    ensures q.licence != "" && Holds(athletes, i, q.licence)
    ensures forall j: nat :: j < i ==> !Holds(athletes, j, q.licence)
  {
    assert HasLicence(q.licence)(athletes[i]);
    assert forall j: nat :: j < i ==> !HasLicence(q.licence)(athletes[j]);
  }

  lemma NotHeldBefore(athletes: seq<Athlete>, q: Request)
    requires ByLicence(athletes, q) == |athletes| && q.licence != ""
    ensures !Held(athletes, q.licence)
  {
    forall j: nat ensures !Holds(athletes, j, q.licence) {
      assert j < |athletes| ==> !HasLicence(q.licence)(athletes[j]);
    }
  }

  lemma KeyAgrees(athletes: seq<Athlete>, later: seq<Athlete>, q: Request, owner: map<string, NaturalKey>)
    requires Grows(athletes, later) && LicencesNamed(later, owner) && RequestNamed(q, owner)
    requires q.licence != "" ==> !Held(athletes, q.licence)
    ensures var p, a := ByKey(athletes, q), Resolve(later, q).1;
            if p < |athletes| then a == p else a >= |athletes|
  {
    var p, a := ByKey(athletes, q), Resolve(later, q).1;
    assert forall k :: 0 <= k < p ==> !HasKey(q.Key())(athletes[k]);
    if p < |athletes| {
      assert HasKey(q.Key())(athletes[p]) && FirstOfKey(athletes, p);
      FirstPersists(athletes, later, p);
    }
    var i := ByLicence(later, q);
    if i < |later| {
      assert HasLicence(q.licence)(later[i]) && Holds(later, i, q.licence);
      assert KeyOf(later[i]) == q.Key() && FirstOfKey(later, i);
    } else {
      var k := ByKey(later, q);
      if k < |later| { assert HasKey(q.Key())(later[k]); }
      assert forall j :: 0 <= j < k ==> !HasKey(q.Key())(later[j]);
    }
  }

  // What a row adds to the entries is the entry of its request.
  lemma RowMakesEntry(events: seq<Event>, before: Store, row: Row, event: nat, a: nat)
    requires Entered(CommitRow(events, before, row).0.entries, event, a) && !Entered(before.entries, event, a)
    ensures Entering(events, row).Some?
    ensures var q := Entering(events, row).value; q.event == event && Resolve(before.athletes, q).1 == a
  {}

  // Every entry beyond the ones there were comes from a row of the file.
  lemma {:induction false} EntryComesFromRow(events: seq<Event>, db: Store, rows: seq<Row>, n: nat, event: nat, a: nat)
    returns (i: nat)
    requires n <= |rows| && !Entered(db.entries, event, a)
    requires Entered(CommitRows(events, db, rows[..n]).0.entries, event, a)
    ensures i < n && Entering(events, rows[i]).Some?
    ensures var q := Entering(events, rows[i]).value;
            q.event == event && CommittedFor(events, db, rows, i, q) == a
  {
    var before := CommitRows(events, db, rows[..n - 1]).0;
    assert rows[..n][..n - 1] == rows[..n - 1];
    if Entered(before.entries, event, a) {
      i := EntryComesFromRow(events, db, rows, n - 1, event, a);
    } else {
      i := n - 1;
      RowMakesEntry(events, before, rows[i], event, a);
    }
  }

  lemma {:induction false} RowEnters(events: seq<Event>, db: Store, rows: seq<Row>, i: nat, n: nat)
    requires i < n <= |rows| && Entering(events, rows[i]).Some?
    ensures var q := Entering(events, rows[i]).value;
            Entered(CommitRows(events, db, rows[..n]).0.entries, q.event, CommittedFor(events, db, rows, i, q))
  {
    assert rows[..n][..i] == rows[..i];
    RowWithin(events, db, rows[..n], i);
    CommitLeaves(events, CommitRows(events, db, rows[..i]).0, Entering(events, rows[i]).value);
  }

  ghost predicate Named(events: seq<Event>, db: Store, rows: seq<Row>, owner: map<string, NaturalKey>) {
    EntriesResolve(db) && LicencesNamed(db.athletes, owner) && RowsNamed(events, rows, owner)
  }

  // What the tables before row j say of the athlete it is previewed for.
  lemma RowLookup(events: seq<Event>, db: Store, rows: seq<Row>, owner: map<string, NaturalKey>, j: nat)
    requires Named(events, db, rows, owner) && j < |rows| && Entering(events, rows[j]).Some?
    ensures var q := Entering(events, rows[j]).value;
            var p, a := Lookup(db.athletes, q), CommittedFor(events, db, rows, j, q);
            if p < |db.athletes| then a == p else a >= |db.athletes|
  {
    var before := CommitRows(events, db, rows[..j]).0;
    PrefixExtends(events, db, rows[..j], 0);
    assert rows[..j][..0] == [] && CommitRows(events, db, []).0 == db;
    RowsNamedAfter(events, db, rows[..j], owner);
    LookupAgrees(db.athletes, before.athletes, Entering(events, rows[j]).value, owner);
  }

  // Row j is previewed as committed unless an earlier row previewed as accepted makes its entry.
  lemma RowPreviewExactly(events: seq<Event>, db: Store, rows: seq<Row>, owner: map<string, NaturalKey>, j: nat)
    requires Named(events, db, rows, owner) && j < |rows|
    ensures PreviewRow(events, db, rows[j]) == CommitRows(events, db, rows).1[j]
            <==> forall i: nat :: i < j ==> !SameEntry(events, db, rows, i, j)
  {
    var before := CommitRows(events, db, rows[..j]).0;
    RowWithin(events, db, rows, j);
    PreviewForetells(events, db, before, rows[j]);
    if Entering(events, rows[j]).Some? {
      var q := Entering(events, rows[j]).value;
      var a := CommittedFor(events, db, rows, j, q);
      KnownEntry(events, db, rows, owner, j, q);
      if !Entered(db.entries, q.event, a) { FirstEntry(events, db, rows, owner, j, q, a); }
    }
  }

  lemma EarlierEntry(events: seq<Event>, db: Store, rows: seq<Row>, owner: map<string, NaturalKey>, j: nat,
                     q: Request, a: nat) returns (i: nat)
    requires Named(events, db, rows, owner) && j < |rows| && Entering(events, rows[j]) == Some(q)
    requires a == CommittedFor(events, db, rows, j, q) && !Entered(db.entries, q.event, a)
    requires PreviewRow(events, db, rows[j]).Accepted?
    requires Entered(CommitRows(events, db, rows[..j]).0.entries, q.event, a)
    ensures i < j && SameEntry(events, db, rows, i, j)
  {
    i := EntryComesFromRow(events, db, rows, j, q.event, a);
    RowLookup(events, db, rows, owner, i);
    AcceptedExactly(events, db, rows[i], Entering(events, rows[i]).value);
  }

  lemma AcceptedExactly(events: seq<Event>, db: Store, row: Row, q: Request)
    requires Entering(events, row) == Some(q)
    ensures var p := Lookup(db.athletes, q);
            PreviewRow(events, db, row).Accepted? <==> p >= |db.athletes| || !Entered(db.entries, q.event, p)
  {}

  lemma SameRequest(events: seq<Event>, db: Store, rows: seq<Row>, i: nat, j: nat, q: Request)
    requires i < |rows| && j < |rows| && SameEntry(events, db, rows, i, j) && Entering(events, rows[j]) == Some(q)
    ensures Entering(events, rows[i]).Some?
    ensures var p := Entering(events, rows[i]).value;
            p.event == q.event && CommittedFor(events, db, rows, i, p) == CommittedFor(events, db, rows, j, q)
  {}

  // A new entry is there before row j exactly when an earlier row makes the same one.
  lemma FirstEntry(events: seq<Event>, db: Store, rows: seq<Row>, owner: map<string, NaturalKey>, j: nat,
                   q: Request, a: nat)
    requires Named(events, db, rows, owner) && j < |rows| && Entering(events, rows[j]) == Some(q)
    requires a == CommittedFor(events, db, rows, j, q) && !Entered(db.entries, q.event, a)
    requires PreviewRow(events, db, rows[j]).Accepted?
    ensures Entered(CommitRows(events, db, rows[..j]).0.entries, q.event, a)
            <==> exists i: nat :: i < j && SameEntry(events, db, rows, i, j)
  {
    if Entered(CommitRows(events, db, rows[..j]).0.entries, q.event, a) {
      var i := EarlierEntry(events, db, rows, owner, j, q, a);
      assert SameEntry(events, db, rows, i, j);
    }
    if i: nat :| i < j && SameEntry(events, db, rows, i, j) {
      SameRequest(events, db, rows, i, j, q);
      RowEnters(events, db, rows, i, j);
    }
  }

  // A row whose athlete is entered beforehand keeps being so, and is previewed as updated.
  lemma KnownEntry(events: seq<Event>, db: Store, rows: seq<Row>, owner: map<string, NaturalKey>, j: nat, q: Request)
    requires Named(events, db, rows, owner) && j < |rows| && Entering(events, rows[j]) == Some(q)
    ensures var a := CommittedFor(events, db, rows, j, q);
            && (PreviewRow(events, db, rows[j]).Accepted? <==> !Entered(db.entries, q.event, a))
            && (Entered(db.entries, q.event, a) ==> Entered(CommitRows(events, db, rows[..j]).0.entries, q.event, a))
  {
    RowLookup(events, db, rows, owner, j);
    AcceptedExactly(events, db, rows[j], q);
    EntriesStay(events, db, rows, j);
  }

  lemma EntriesStay(events: seq<Event>, db: Store, rows: seq<Row>, j: nat)
    requires j <= |rows|
    ensures forall event, a :: Entered(db.entries, event, a) ==> Entered(CommitRows(events, db, rows[..j]).0.entries, event, a)
  {
    PrefixExtends(events, db, rows[..j], 0);
    assert rows[..j][..0] == [] && CommitRows(events, db, []).0 == db;
  }

  // With named licences, the preview of a file is what a commit of it will report if and only if
  // no two rows previewed as accepted enter the same athlete in the same event.
  lemma PreviewExactly(events: seq<Event>, db: Store, rows: seq<Row>, owner: map<string, NaturalKey>)
    requires Named(events, db, rows, owner)
    ensures Map(PreviewOf(events, db), rows) == CommitRows(events, db, rows).1
            <==> forall i: nat, j: nat :: i < j < |rows| ==> !SameEntry(events, db, rows, i, j)
  {
    forall j: nat | j < |rows|
      ensures PreviewRow(events, db, rows[j]) == CommitRows(events, db, rows).1[j]
              <==> forall i: nat :: i < j ==> !SameEntry(events, db, rows, i, j)
    {
      RowPreviewExactly(events, db, rows, owner, j);
    }
    if Map(PreviewOf(events, db), rows) == CommitRows(events, db, rows).1 {
      forall j: nat | j < |rows| ensures PreviewRow(events, db, rows[j]) == CommitRows(events, db, rows).1[j] {
        assert Map(PreviewOf(events, db), rows)[j] == PreviewRow(events, db, rows[j]);
      }
    }
  }
}
