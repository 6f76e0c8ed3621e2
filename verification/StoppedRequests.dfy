// Requests of several transactions that stop on the way and are sent again: bulk DNS ends as if
// it had never stopped, and a decision on a timing row writes its result once more.
module StoppedRequests {
  import opened Basics
  import opened Text
  import opened Vocabulary
  import opened Tables
  import opened Capture
  import opened AnnouncedResults
  import opened TimingQueue
  import R = Results

  // --- Bulk DNS ---

  const MARKED: Settled := Settled("", NoTiming, DNS, "", Operator, 1)

  // Those of the athletes without a result in the unit have a first DNS; nothing else is different.
  ghost predicate Marked(db: Db, next: Db, unit: string, athletes: seq<string>) {
    && next == db.(results := next.results)
    && forall u: string, a: string ::
         && ((u, a) in next.results <==> (u, a) in db.results || (u == unit && a in athletes))
         && ((u, a) in next.results ==> next.results[(u, a)] == if (u, a) in db.results then db.results[(u, a)] else MARKED)
  }

  lemma {:induction false} MarksMissing(db: Db, unit: string, athletes: seq<string>)
    ensures Marked(db, R.MarkDNS(db, unit, athletes).0, unit, athletes)
  {
    if athletes != [] {
      var init, last := athletes[..|athletes| - 1], athletes[|athletes| - 1];
      MarksMissing(db, unit, init);
      assert athletes == init + [last];
      OneMarked(db, R.MarkDNS(db, unit, init).0, unit, init, last);
    }
  }

  lemma OneMarked(db: Db, before: Db, unit: string, init: seq<string>, last: string)
    requires Marked(db, before, unit, init)
    ensures Marked(db, R.SaveOptimistic(before, unit, last, R.DNS_ROW, 0).0, unit, init + [last])
  {}

  lemma MarkedOnce(db: Db, a: Db, b: Db, unit: string, athletes: seq<string>, others: seq<string>)
    requires Marked(db, a, unit, athletes) && Marked(db, b, unit, others)
    requires forall x :: x in athletes || (unit, x) in db.results <==> x in others || (unit, x) in db.results
    ensures a == b
  {
    forall key: (string, string)
      ensures (key in a.results <==> key in b.results) && (key in a.results ==> a.results[key] == b.results[key])
    {
      assert key == (key.0, key.1);
    }
    assert a.results == b.results;
  }

  lemma {:induction false} UnresultedMembers(db: Db, unit: string, roster: seq<string>)
    ensures forall x :: x in R.Unresulted(db, unit, roster) <==> x in roster && (unit, x) !in db.results
  {
    if roster != [] {
      UnresultedMembers(db, unit, roster[..|roster| - 1]);
      assert roster == roster[..|roster| - 1] + [roster[|roster| - 1]];
    }
  }

  // Everyone on the roster without a result gets a first DNS, and only they.
  lemma BulkMeaning(meet: Meet, db: Db, unit: string)
    requires meet.IsUnit(unit, Track) && !db.Announced(unit)
    ensures Marked(db, R.BulkMarkRemainingDNS(meet, db, unit).0, unit, R.Unresulted(db, unit, meet.roster))
    ensures forall x :: x in R.Unresulted(db, unit, meet.roster) <==> x in meet.roster && (unit, x) !in db.results
  {
    MarksMissing(db, unit, R.Unresulted(db, unit, meet.roster));
    UnresultedMembers(db, unit, meet.roster);
  }

  lemma MarkedTwice(db: Db, cut: Db, next: Db, unit: string, some: seq<string>, more: seq<string>)
    requires Marked(db, cut, unit, some) && Marked(cut, next, unit, more)
    ensures Marked(db, next, unit, some + more)
  {}

  // Marking some of the open entries, and then whoever is still open, marks them all.
  lemma RestMarked(meet: Meet, db: Db, cut: Db, next: Db, all: Db, unit: string, some: seq<string>)
    requires Marked(db, cut, unit, some) && (forall x <- some :: x in meet.roster && (unit, x) !in db.results)
    requires Marked(cut, next, unit, R.Unresulted(cut, unit, meet.roster))
    requires Marked(db, all, unit, R.Unresulted(db, unit, meet.roster))
    ensures next == all
  {
    var open, rest := R.Unresulted(db, unit, meet.roster), R.Unresulted(cut, unit, meet.roster);
    UnresultedMembers(db, unit, meet.roster);
    UnresultedMembers(cut, unit, meet.roster);
    MarkedTwice(db, cut, next, unit, some, rest);
    forall x ensures x in some + rest <==> x in open {
      assert (unit, x) in cut.results <==> (unit, x) in db.results || x in some;
    }
    MarkedOnce(db, next, all, unit, some + rest, open);
  }

  lemma CutMarks(meet: Meet, db: Db, unit: string, n: nat) returns (some: seq<string>)
    requires meet.IsUnit(unit, Track) && !db.Announced(unit)
    ensures Marked(db, R.BulkCut(meet, db, unit, n), unit, some)
    ensures forall x <- some :: x in meet.roster && (unit, x) !in db.results
  {
    var open := R.Unresulted(db, unit, meet.roster);
    some := if n < |open| then open[..n] else open;
    MarksMissing(db, unit, some);
    UnresultedMembers(db, unit, meet.roster);
  }

  // However many entries a stopped request got through, sending it again ends as one that never
  // stopped.
  lemma BulkResumes(meet: Meet, db: Db, unit: string, n: nat)
    ensures R.BulkMarkRemainingDNS(meet, R.BulkCut(meet, db, unit, n), unit).0 == R.BulkMarkRemainingDNS(meet, db, unit).0
  {
    var cut := R.BulkCut(meet, db, unit, n);
    if meet.IsUnit(unit, Track) && !db.Announced(unit) {
      var some := CutMarks(meet, db, unit, n);
      assert !cut.Announced(unit);
      BulkMeaning(meet, db, unit);
      BulkMeaning(meet, cut, unit);
      RestMarked(meet, db, cut, R.BulkMarkRemainingDNS(meet, cut, unit).0,
                 R.BulkMarkRemainingDNS(meet, db, unit).0, unit, some);
    } else {
      assert cut == db;
    }
  }

  // --- Deciding a timing row ---

  // The result a decision writes.
  function Decided(meet: Meet, db: Db, c: Conflict, choice: R.Choice): Settled
    requires c.unit.Some? && c.unit.value in meet.units
  {
    var row := R.ChosenRow(db, c, choice);
    var fixed := R.CorrectedRow(meet.units[c.unit.value].family, R.CorrectionFrom(row, choice));
    if db.Announced(c.unit.value) && fixed.Ok? then fixed.value else AppliedRow(row, c.source)
  }

  lemma WriteIs(meet: Meet, db: Db, c: Conflict, choice: R.Choice, now: int)
    requires Writable(meet, db, c, choice, now)
    ensures var (next, done) := R.WriteChoice(meet, db, c, choice, now);
            var unit := c.unit.value;
            var written := db.(results := Upsert(db.results, unit, R.ChosenAthlete(c, choice), Decided(meet, db, c, choice)));
            done.Ok? && next == if db.Announced(unit) then R.Announce(written, unit, now) else written
  {
    var unit, athlete, row := c.unit.value, R.ChosenAthlete(c, choice), R.ChosenRow(db, c, choice);
    WritableExactly(meet, db, c, choice, now);
    WrittenRow(meet, db, unit, athlete, row, c.source);
  }

  // The protest window of the first write is still open, or nothing was posted, or the escalation
  // stands.
  predicate StillInTime(db: Db, unit: string, choice: R.Choice, now: int, again: int) {
    db.Announced(unit) && again - now >= R.PROTEST_WINDOW ==> TrimSpace(choice.escalation) != ""
  }

  // A replacement that stopped after its write and is sent again takes effect unless the protest
  // window has run out meanwhile: the row is closed as without the stop, and the result is the
  // same under the next version.
  lemma ReplaceResumes(meet: Meet, db: Db, index: nat, choice: R.Choice, now: int, again: int)
    requires index < |db.conflicts| && db.conflicts[index].status.Open? && choice.action.Replace?
    requires Writable(meet, db, db.conflicts[index], choice, now)
    ensures var c := db.conflicts[index];
            var (unit, athlete) := (c.unit.value, R.ChosenAthlete(c, choice));
            var once := R.ResolveTimingConflict(meet, db, index, choice, now).0;
            var cut := R.ResolveTimingCut(meet, db, index, choice, now);
            var (next, done) := R.ResolveTimingConflict(meet, cut, index, choice, again);
            && (done.Ok? <==> StillInTime(db, unit, choice, now, again)) && (done.Err? ==> next == cut)
            && (done.Ok? ==> next.conflicts == once.conflicts
                             && next.results == Upsert(once.results, unit, athlete, Decided(meet, db, c, choice)))
  {
    var c := db.conflicts[index];
    var cut := R.ResolveTimingCut(meet, db, index, choice, now);
    WriteIs(meet, db, c, choice, now);
    FirstResolution(meet, db, index, choice, now);
    ClosingKeepsResults(meet, db, index, choice, now);
    SameWritable(meet, db, cut, c, choice, now, again);
    FirstResolution(meet, cut, index, choice, again);
    if StillInTime(db, c.unit.value, choice, now, again) {
      WriteIs(meet, cut, c, choice, again);
      ClosingKeepsResults(meet, cut, index, choice, again);
    }
  }

  // After the write, the same replacement is writable exactly while it is in time.
  lemma SameWritable(meet: Meet, db: Db, cut: Db, c: Conflict, choice: R.Choice, now: int, again: int)
    requires Writable(meet, db, c, choice, now) && choice.action.Replace?
    requires cut.Announced(c.unit.value) == db.Announced(c.unit.value)
    requires db.Announced(c.unit.value) ==> cut.LatestAnnouncement(c.unit.value) == now
    ensures Writable(meet, cut, c, choice, again) <==> StillInTime(db, c.unit.value, choice, now, again)
    ensures Decided(meet, cut, c, choice) == Decided(meet, db, c, choice)
  {}
}
