// What a device can check of its batch before sending it: without running a replay, which ops
// will be written, and so whether the batch survives stops and resends.
module ResendChecks {
  import opened Basics
  import opened Tables
  import opened Checkouts
  import opened Capture
  import opened Replay
  import opened Protocol
  import opened Rejections
  import opened CrashResend
  import NL = NothingLost
  import AMO = AtMostOnce

  // The meet can rate the athlete's marks, and no other unit has decided an op of this id.
  predicate Plain(meet: Meet, db: Db, unit: string, op: Op) {
    && meet.categories && meet.HasColumn(unit, op.input.athlete, NoTiming)
    && (op.id in db.ops ==> db.ops[op.id].unit == unit)
  }

  // Each op has an id and a trial of its own.
  ghost predicate Independent(unit: string, ops: seq<Op>) {
    forall i, j :: 0 <= i < j < |ops| ==>
      ops[i].id != ops[j].id && CellOf(unit, ops[i].input) != CellOf(unit, ops[j].input)
  }

  // To this op the two states look the same.
  ghost predicate Alike(db: Db, s: Db, unit: string, from: Sender, op: Op) {
    var cell := CellOf(unit, op.input);
    && (op.id in s.ops <==> op.id in db.ops) && (op.id in db.ops ==> s.ops[op.id] == db.ops[op.id])
    && Decide(s, unit, from.stamp) == Decide(db, unit, from.stamp) && s.Announced(unit) == db.Announced(unit)
    && (cell in s.trials <==> cell in db.trials) && (cell in db.trials ==> s.trials[cell] == db.trials[cell])
  }

  lemma WritesExactly(meet: Meet, db: Db, unit: string, from: Sender, op: Op)
    requires meet.IsUnit(unit, Horizontal) && Plain(meet, db, unit, op)
    ensures Writes(meet, db, unit, from, op) <==> LandsAt(meet, db, unit, from, op)
  {
    SaveAnswers(meet, db, unit, op.input);
  }

  // A plain op always gets an answer.
  lemma PlainAnswers(meet: Meet, db: Db, unit: string, from: Sender, op: Op)
    requires meet.IsUnit(unit, Horizontal) && Plain(meet, db, unit, op)
    ensures ReplayOne(meet, db, unit, from, op).1.Ok?
  {
    if op.id !in db.ops && Decide(db, unit, from.stamp) == ApplyIt { DecidedExactly(meet, db, unit, from, op); }
  }

  // Deciding one op leaves everything another looks at.
  lemma OthersAlike(meet: Meet, db: Db, unit: string, from: Sender, op: Op, other: Op)
    requires op.id != other.id && CellOf(unit, op.input) != CellOf(unit, other.input)
    ensures Alike(db, ReplayOne(meet, db, unit, from, op).0, unit, from, other)
  {
    var next := ReplayOne(meet, db, unit, from, op).0;
    ReplayLedger(meet, db, unit, from, op);
    if other.id !in db.ops { NL.OnlyOwnEntry(meet, db, unit, from, op, other.id); }
    AMO.SaveWritesOneCell(meet, db, unit, op.input);
    SaveFrame(meet, db, unit, op.input);
    ReplayFrame(meet, db, unit, from, op);
    CutKeeps(meet, db, unit, from, op);
  }

  lemma CutKeeps(meet: Meet, db: Db, unit: string, from: Sender, op: Op)
    ensures var cut, next := ReplayCut(meet, db, unit, from, op), ReplayOne(meet, db, unit, from, op).0;
            && next.trials == cut.trials && next.checkouts == db.checkouts && next.announcements == db.announcements
            && cut.trials == if op.id !in db.ops && Decide(db, unit, from.stamp) == ApplyIt
                             then SaveFieldAttempt(meet, db, unit, op.input).0.trials else db.trials
  {
    SaveFrame(meet, db, unit, op.input);
    ReplayFrame(meet, db, unit, from, op);
  }

  lemma AlikeTransitive(a: Db, b: Db, c: Db, unit: string, from: Sender, op: Op)
    requires Alike(a, b, unit, from, op) && Alike(b, c, unit, from, op)
    ensures Alike(a, c, unit, from, op)
  {}

  lemma AlikeLands(meet: Meet, db: Db, s: Db, unit: string, from: Sender, op: Op)
    requires meet.IsUnit(unit, Horizontal) && Alike(db, s, unit, from, op)
    ensures LandsAt(meet, s, unit, from, op) <==> LandsAt(meet, db, unit, from, op)
    ensures Plain(meet, s, unit, op) <==> Plain(meet, db, unit, op)
  {}

  lemma {:induction false} SafeFrom(meet: Meet, db: Db, s: Db, unit: string, from: Sender, ops: seq<Op>)
    requires meet.IsUnit(unit, Horizontal) && Independent(unit, ops)
    requires forall op <- ops :: Plain(meet, db, unit, op) && Alike(db, s, unit, from, op)
    ensures ResendSafe(meet, s, unit, from, ops)
            <==> forall op <- ops :: LandsAt(meet, db, unit, from, op) ==> CanonicalMark(op)
    decreases |ops|
  {
    if ops != [] {
      var op, rest := ops[0], ops[1..];
      var next := ReplayOne(meet, s, unit, from, op).0;
      assert ops == [op] + rest;
      AlikeLands(meet, db, s, unit, from, op);
      PlainAnswers(meet, s, unit, from, op);
      WritesExactly(meet, s, unit, from, op);
      RestAlike(meet, db, s, unit, from, ops);
      SafeFrom(meet, db, next, unit, from, rest);
    }
  }

  lemma RestAlike(meet: Meet, db: Db, s: Db, unit: string, from: Sender, ops: seq<Op>)
    requires ops != [] && Independent(unit, ops) && forall op <- ops :: Alike(db, s, unit, from, op)
    ensures Independent(unit, ops[1..])
    ensures forall op <- ops[1..] :: Alike(db, ReplayOne(meet, s, unit, from, ops[0]).0, unit, from, op)
  {
    forall op <- ops[1..] ensures Alike(db, ReplayOne(meet, s, unit, from, ops[0]).0, unit, from, op) {
      var j :| 0 <= j < |ops[1..]| && ops[1..][j] == op;
      assert ops[j + 1] == op;
      OthersAlike(meet, s, unit, from, ops[0], op);
      AlikeTransitive(db, s, ReplayOne(meet, s, unit, from, ops[0]).0, unit, from, op);
    }
  }

  // A batch of independent plain ops ends as one undisturbed replay does, whatever the stops, if
  // and only if each op that lands by the tables as they are carries a canonical mark.
  lemma ConvergesExactly(meet: Meet, db: Db, unit: string, from: Sender, ops: seq<Op>)
    requires meet.IsUnit(unit, Horizontal) && Independent(unit, ops)
    requires forall op <- ops :: Plain(meet, db, unit, op)
    ensures (forall stops: seq<Stop> :: Converges(meet, db, unit, from, ops, stops))
            <==> (forall op <- ops :: LandsAt(meet, db, unit, from, op) ==> CanonicalMark(op))
  {
    SafeFrom(meet, db, db, unit, from, ops);
    CrashResendExactly(meet, db, unit, from, ops);
  }
}
