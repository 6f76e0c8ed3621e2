// Committing the same CSV file a second time: exactly when it leaves athletes, clubs,
// registrations and entries as they were, with nothing asked of the store or the file.
module CsvRepeats {
  import opened Basics
  import opened CsvImport

  // --- The request behind a row ---

  // What a row that is not rejected asks for.
  function Entering(events: seq<Event>, row: Row): (r: Option<Request>)
    ensures r.Some? ==> r.value.event < |events| && ParseRow(events, row) == Ok(r.value)
  {
    var q := ParseRow(events, row);
    if q.Err? || FailsStandard(events[q.value.event], q.value.seed).None? then None else Some(q.value)
  }

  // The athlete row i of the file was committed for.
  function CommittedFor(events: seq<Event>, db: Store, rows: seq<Row>, i: nat, q: Request): nat
    requires i < |rows|
  {
    Resolve(CommitRows(events, db, rows[..i]).0.athletes, q).1
  }

  predicate InPlace(db: Store, event: nat, athlete: nat) {
    athlete in db.participants && Entered(db.entries, event, athlete)
  }

  // --- Looking the athlete up again ---

  // The licence is no reason to find somebody else: there is none, the athlete has it, or nobody.
  ghost predicate StillMeant(athletes: seq<Athlete>, q: Request, a: nat) {
    q.licence == "" || Holds(athletes, a, q.licence) || !Held(athletes, q.licence)
  }

  // Asked again of any later table, a request changes no athlete, and finds the one it was
  // resolved to if and only if that athlete is still meant.
  lemma FoundLater(before: seq<Athlete>, q: Request, later: seq<Athlete>)
    requires Grows(Resolve(before, q).0, later)
    ensures var a, (found, b) := Resolve(before, q).1, Resolve(later, q);
            found == later && (b == a <==> StillMeant(later, q, a))
  {
    var (after, a) := Resolve(before, q);
    ResolvedHow(before, q);
    if q.licence != "" && Holds(after, a, q.licence) {
      HolderFound(after, q, later, a);
    } else {
      FirstPersists(after, later, a);
      assert HasKey(q.Key())(later[a]);
      FirstIs(HasKey(q.Key()), later, a);
      if q.licence != "" {
        assert Holds(after, a, after[a].licence.value) && Holds(later, a, after[a].licence.value);
        OtherHolder(later, q, a);
      }
    }
  }

  lemma HolderFound(after: seq<Athlete>, q: Request, later: seq<Athlete>, a: nat)
    requires Grows(after, later) && q.licence != "" && Holds(after, a, q.licence)
    requires forall j: nat :: j < a ==> !Holds(after, j, q.licence)
    ensures ByLicence(later, q) == a < |later|
  {
    assert Held(after, q.licence) && Holds(later, a, q.licence);
    forall j: nat | j < a ensures !HasLicence(q.licence)(later[j]) {
      assert HasLicence(q.licence)(later[j]) ==> Holds(later, j, q.licence);
    }
    FirstIs(HasLicence(q.licence), later, a);
  }

  // An athlete who holds another licence is found by the key only if nobody holds this one.
  lemma OtherHolder(later: seq<Athlete>, q: Request, a: nat)
    requires a < |later| && q.licence != "" && !Holds(later, a, q.licence)
    ensures var i := ByLicence(later, q);
            i != a && (i < |later| <==> Held(later, q.licence))
  {
    var i := ByLicence(later, q);
    if i < |later| {
      assert HasLicence(q.licence)(later[i]) && Holds(later, i, q.licence);
    } else {
      forall j: nat ensures !Holds(later, j, q.licence) {
        assert j < |later| ==> !HasLicence(q.licence)(later[j]);
      }
    }
  }

  // --- One row again ---

  // The athlete a row means in these tables is registered and entered in its event.
  ghost predicate Settles(events: seq<Event>, db: Store, row: Row) {
    var q := Entering(events, row);
    q.Some? ==> InPlace(db, q.value.event, Resolve(db.athletes, q.value).1)
  }

  // Athletes and clubs stay, entries and registrations only grow.
  ghost predicate OnlyEntersMore(db: Store, next: Store) {
    && next.athletes == db.athletes && next.clubs == db.clubs
    && db.entries <= next.entries && db.participants <= next.participants
  }

  lemma RowSecondTime(events: seq<Event>, before: Store, row: Row, later: Store)
    requires Extends(CommitRow(events, before, row).0, later)
    ensures var (next, status) := CommitRow(events, later, row);
            && OnlyEntersMore(later, next) && (next == later <==> Settles(events, later, row))
            && (next == later ==> status == Again(CommitRow(events, before, row).1))
  {
    var parsed := ParseRow(events, row);
    if parsed.Ok? {
      var q := parsed.value;
      FoundLater(before.athletes, q, later.athletes);
      CommitLeaves(events, before, q);
      RequestSecondTime(events, later, q, Resolve(later.athletes, q).1);
    }
  }

  lemma RequestSecondTime(events: seq<Event>, db: Store, q: Request, a: nat)
    requires q.event < |events| && Resolve(db.athletes, q) == (db.athletes, a) && (q.club != "" ==> q.club in db.clubs)
    ensures var (next, status) := CommitRequest(events, db, q);
            && OnlyEntersMore(db, next)
            && if FailsStandard(events[q.event], q.seed).None? then next == db && status == Rejected(UnreadableSeed)
               else (next == db <==> InPlace(db, q.event, a)) && (next == db ==> status == Updated)
  {
    if a in db.participants { assert db.participants + {a} == db.participants; }
  }

  // A single row may be committed as often as one likes.
  lemma RowTwiceChangesNothing(events: seq<Event>, db: Store, row: Row)
    ensures var once := CommitRow(events, db, row).0; CommitRow(events, once, row).0 == once
  {
    var once := CommitRow(events, db, row).0;
    GrowsReflexive(once.athletes);
    RowSecondTime(events, db, row, once);
    var q := Entering(events, row);
    if q.Some? {
      ResolvedHow(db.athletes, q.value);
      FoundLater(db.athletes, q.value, once.athletes);
      CommitLeaves(events, db, q.value);
    }
  }

  lemma GrowsReflexive(a: seq<Athlete>)
    ensures Grows(a, a)
  {
    forall i: nat, l | Holds(a, i, l) ensures Held(a, l) {}
  }

  // --- The file again ---

  lemma {:induction false} PrefixExtends(events: seq<Event>, db: Store, rows: seq<Row>, n: nat)
    requires n <= |rows|
    ensures Extends(CommitRows(events, db, rows[..n]).0, CommitRows(events, db, rows).0)
    ensures CommitRows(events, db, rows[..n]).1 == CommitRows(events, db, rows).1[..n]
    decreases |rows|
  {
    if n == |rows| {
      assert rows[..n] == rows;
      GrowsReflexive(CommitRows(events, db, rows).0.athletes);
      assert CommitRows(events, db, rows).1[..n] == CommitRows(events, db, rows).1;
    } else {
      var init, last := rows[..|rows| - 1], rows[|rows| - 1];
      PrefixExtends(events, db, init, n);
      assert init[..n] == rows[..n];
      RowExtends(events, CommitRows(events, db, init).0, last);
      ExtendsTransitive(CommitRows(events, db, rows[..n]).0, CommitRows(events, db, init).0, CommitRows(events, db, rows).0);
    }
  }

  // The tables after row n, among the tables after the whole file.
  lemma RowWithin(events: seq<Event>, db: Store, rows: seq<Row>, n: nat)
    requires n < |rows|
    ensures var before := CommitRows(events, db, rows[..n]).0;
            Extends(CommitRow(events, before, rows[n]).0, CommitRows(events, db, rows).0)
    ensures CommitRows(events, db, rows).1[n] == CommitRow(events, CommitRows(events, db, rows[..n]).0, rows[n]).1
  {
    assert rows[..n + 1][..n] == rows[..n];
    PrefixExtends(events, db, rows, n + 1);
    assert CommitRows(events, db, rows[..n + 1]).1[n] == CommitRows(events, db, rows).1[n];
  }

  lemma OnlyEntersExtends(db: Store, next: Store)
    requires OnlyEntersMore(db, next)
    ensures Extends(db, next)
  {
    GrowsReflexive(db.athletes);
  }

  // The second commit has come to these tables and answers after n rows.
  ghost predicate AgainSo(events: seq<Event>, rows: seq<Row>, n: nat, after: Store, statuses: seq<Status>,
                          so: Store, far: seq<Status>)
    requires n <= |rows| == |statuses|
  {
    && OnlyEntersMore(after, so)
    && (so == after <==> forall i :: 0 <= i < n ==> Settles(events, after, rows[i]))
    && (so == after ==> far == Map(Again, statuses[..n]))
  }

  lemma {:induction false} AgainUpTo(events: seq<Event>, db: Store, rows: seq<Row>, n: nat)
    requires n <= |rows|
    ensures var (after, statuses) := CommitRows(events, db, rows);
            var (so, far) := CommitRows(events, after, rows[..n]);
            AgainSo(events, rows, n, after, statuses, so, far)
  {
    var (after, statuses) := CommitRows(events, db, rows);
    if n == 0 {
      assert CommitRows(events, after, rows[..0]) == (after, []);
    } else {
      var k := n - 1;
      AgainUpTo(events, db, rows, k);
      assert rows[..n][..k] == rows[..k];
      var (so, far) := CommitRows(events, after, rows[..k]);
      RowAgainWithin(events, db, rows, k, so);
      var (next, status) := CommitRow(events, so, rows[k]);
      AgainStep(events, rows, k, after, statuses, so, far, next, status);
    }
  }

  lemma AgainStep(events: seq<Event>, rows: seq<Row>, k: nat, after: Store, statuses: seq<Status>,
                  so: Store, far: seq<Status>, next: Store, status: Status)
    requires k < |rows| == |statuses| && AgainSo(events, rows, k, after, statuses, so, far)
    requires OnlyEntersMore(so, next) && (next == so <==> Settles(events, so, rows[k]))
    requires next == so ==> status == Again(statuses[k])
    ensures AgainSo(events, rows, k + 1, after, statuses, next, far + [status])
  {
    StillAhead(after, so, next);
    OneMoreAnswer(statuses, k);
  }

  lemma OneMoreAnswer(statuses: seq<Status>, k: nat)
    requires k < |statuses|
    ensures Map(Again, statuses[..k + 1]) == Map(Again, statuses[..k]) + [Again(statuses[k])]
  {
    MapLast(Again, statuses[..k + 1]);
    assert statuses[..k + 1][..k] == statuses[..k];
  }

  // Row k of the second commit, on whatever the rows before it have left.
  lemma RowAgainWithin(events: seq<Event>, db: Store, rows: seq<Row>, k: nat, so: Store)
    requires k < |rows| && OnlyEntersMore(CommitRows(events, db, rows).0, so)
    ensures var (next, status) := CommitRow(events, so, rows[k]);
            && OnlyEntersMore(so, next) && (next == so <==> Settles(events, so, rows[k]))
            && (next == so ==> status == Again(CommitRows(events, db, rows).1[k]))
  {
    var before, after := CommitRows(events, db, rows[..k]).0, CommitRows(events, db, rows).0;
    RowWithin(events, db, rows, k);
    OnlyEntersExtends(after, so);
    ExtendsTransitive(CommitRow(events, before, rows[k]).0, after, so);
    RowSecondTime(events, before, rows[k], so);
  }

  // What has once grown does not shrink back.
  lemma StillAhead(a: Store, b: Store, c: Store)
    requires OnlyEntersMore(a, b) && OnlyEntersMore(b, c)
    ensures OnlyEntersMore(a, c) && (c == a ==> b == a)
  {}

  // Row i's licence has meanwhile been given to somebody else, who is not in place in its event.
  ghost predicate TakenOver(events: seq<Event>, db: Store, rows: seq<Row>, i: nat)
    requires i < |rows|
  {
    var q, after := Entering(events, rows[i]), CommitRows(events, db, rows).0;
    && q.Some? && !StillMeant(after.athletes, q.value, CommittedFor(events, db, rows, i, q.value))
    && !InPlace(after, q.value.event, ByLicence(after.athletes, q.value))
  }

  lemma SettlesExactly(events: seq<Event>, db: Store, rows: seq<Row>, i: nat)
    requires i < |rows|
    ensures Settles(events, CommitRows(events, db, rows).0, rows[i]) <==> !TakenOver(events, db, rows, i)
  {
    var q, after := Entering(events, rows[i]), CommitRows(events, db, rows).0;
    if q.Some? {
      var before := CommitRows(events, db, rows[..i]).0;
      RowWithin(events, db, rows, i);
      FoundLater(before.athletes, q.value, after.athletes);
      CommitLeaves(events, before, q.value);
      if !StillMeant(after.athletes, q.value, CommittedFor(events, db, rows, i, q.value)) {
        OtherHolder(after.athletes, q.value, CommittedFor(events, db, rows, i, q.value));
      }
    }
  }

  // Committing the file again leaves these tables as they were if and only if no row's licence was
  // given to another athlete who is not registered and entered in that row's event; and then
  // no row is accepted, and the same rows are rejected for the same reasons.
  lemma SecondCommitExactly(events: seq<Event>, db: Store, rows: seq<Row>)
    ensures var (after, statuses) := CommitRows(events, db, rows);
            var (again, answers) := CommitRows(events, after, rows);
            && (again == after <==> forall i :: 0 <= i < |rows| ==> !TakenOver(events, db, rows, i))
            && (again == after ==> answers == Map(Again, statuses))
            && again.athletes == after.athletes && again.clubs == after.clubs
  {
    var (after, statuses) := CommitRows(events, db, rows);
    AgainUpTo(events, db, rows, |rows|);
    assert rows[..|rows|] == rows && statuses[..|rows|] == statuses;
    forall i | 0 <= i < |rows|
      ensures Settles(events, after, rows[i]) <==> !TakenOver(events, db, rows, i)
    {
      SettlesExactly(events, db, rows, i);
    }
  }
}
