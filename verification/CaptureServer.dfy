// The server object: tables updated in place by one request at a time. Every method leaves
// the tables and the answer its transaction function prescribes, and every request leads from
// its tables only to tables that follow them in the protocol.
module CaptureServer {
  import opened Basics
  import opened Text
  import opened Vocabulary
  import opened FieldSeries
  import opened Tables
  import opened Checkouts
  import opened Capture
  import opened Replay
  import opened Protocol
  import R = Results
  import V = Vertical

  class Server {
    const meet: Meet
    var checkouts: map<string, Checkout>
    var ops: map<string, OpRecord>
    var trials: map<Cell, StoredTrial>
    var bars: map<BarCell, StoredBar>
    var heights: map<string, HeightList>
    var results: map<(string, string), Settled>
    var items: seq<Item>
    var conflicts: seq<Conflict>
    var announcements: map<string, seq<int>>
    var nextToken: nat

    function State(): Db
      reads this
    {
      Db(checkouts, ops, trials, bars, heights, results, items, conflicts, announcements, nextToken)
    }

    constructor (meet: Meet)
      ensures this.meet == meet && State() == EMPTY_DB && Follows(meet, EMPTY_DB, State())
    {
      this.meet := meet;
      checkouts, ops, trials, bars, heights, results := map[], map[], map[], map[], map[], map[];
      items, conflicts, announcements, nextToken := [], [], map[], 0;
      FollowsItself(meet, EMPTY_DB);
    }

    // --- The capture lock ---

    method NewToken() returns (token: nat)
      modifies `nextToken
      ensures token == old(nextToken) && nextToken == token + 1
    {
      token := nextToken;
      nextToken := nextToken + 1;
    }

    method EnsureCheckout(account: string, unit: string, device: string) returns (r: Result<Checkout, LockError>)
      modifies `checkouts, `nextToken
      ensures (State(), r) == Checkouts.EnsureCheckout(meet, old(State()), account, unit, device)
      ensures Follows(meet, old(State()), State())
    {
      FollowsStep(meet, State(), Ensure(account, unit, device));
      if unit !in meet.units {
        return Err(UnknownUnit);
      }
      if unit in checkouts {
        return Ok(checkouts[unit]);
      }
      r := Create(account, unit, device);
    }

    method Create(account: string, unit: string, device: string) returns (r: Result<Checkout, LockError>)
      modifies `checkouts, `nextToken
      ensures (State(), r) == CreateCheckout(old(State()), unit, account, device)
    {
      if unit == "" || account == "" {
        return Err(MissingField);
      }
      var token := NewToken();
      var c := Checkout(account, device, token, 1, 0, true, 1);
      checkouts := checkouts[unit := c];
      r := Ok(c);
    }

    method ReassignLock(account: string, unit: string, device: string) returns (r: Result<Checkout, LockError>)
      requires unit in checkouts
      modifies `checkouts, `nextToken
      ensures (State(), r) == Reassign(old(State()), unit, account, device)
    {
      var token := NewToken();
      var cur := checkouts[unit];
      var c := cur.(account := account, device := device, token := token, generation := cur.generation + 1,
                    active := true, version := cur.version + 1);
      checkouts := checkouts[unit := c];
      r := Ok(c);
    }

    method CheckoutUnit(account: string, unit: string, device: string) returns (r: Result<Checkout, LockError>)
      modifies `checkouts, `nextToken
      ensures (State(), r) == Checkouts.CheckoutUnit(meet, old(State()), account, unit, device)
      ensures Follows(meet, old(State()), State())
    {
      FollowsStep(meet, State(), TakeLock(account, unit, device));
      if unit !in meet.units {
        return Err(UnknownUnit);
      }
      if unit !in checkouts {
        r := Create(account, unit, device);
        return;
      }
      var cur := checkouts[unit];
      if cur.active && cur.account != account {
        return Err(CheckedOutByAnother);
      }
      if cur.active && cur.device == device {
        return Ok(cur);
      }
      r := ReassignLock(account, unit, device);
    }

    method OverrideCheckout(account: string, unit: string, device: string) returns (r: Result<Checkout, LockError>)
      modifies `checkouts, `nextToken
      ensures (State(), r) == Checkouts.OverrideCheckout(meet, old(State()), account, unit, device)
      ensures Follows(meet, old(State()), State())
    {
      FollowsStep(meet, State(), Override(account, unit, device));
      if unit !in meet.units {
        return Err(UnknownUnit);
      }
      if unit !in checkouts {
        return Err(NoCheckout);
      }
      r := ReassignLock(account, unit, device);
    }

    method ReviseStartList(unit: string) returns (r: Result<Checkout, LockError>)
      modifies `checkouts
      ensures (State(), r) == Checkouts.ReviseStartList(meet, old(State()), unit)
      ensures Follows(meet, old(State()), State())
    {
      FollowsStep(meet, State(), Revise(unit));
      if unit !in meet.units {
        return Err(UnknownUnit);
      }
      if unit !in checkouts {
        return Err(NoCheckout);
      }
      var cur := checkouts[unit];
      checkouts := checkouts[unit := cur.(startList := cur.startList + 1, version := cur.version + 1)];
      r := Ok(checkouts[unit]);
    }

    method ReleaseCheckout(unit: string) returns (r: Result<Checkout, LockError>)
      modifies `checkouts
      ensures (State(), r) == Checkouts.ReleaseCheckout(meet, old(State()), unit)
      ensures Follows(meet, old(State()), State())
    {
      FollowsStep(meet, State(), Release(unit));
      if unit !in meet.units {
        return Err(UnknownUnit);
      }
      if unit !in checkouts {
        return Err(NoCheckout);
      }
      var cur := checkouts[unit];
      checkouts := checkouts[unit := cur.(active := false, version := cur.version + 1)];
      r := Ok(checkouts[unit]);
    }

    // --- Field capture ---

    method SaveAttempt(cell: Cell, a: Attempt, expected: int) returns (r: Result<StoredTrial, CaptureError>)
      modifies `trials
      ensures r == SaveTrial(old(trials), cell, a, expected)
      ensures trials == if r.Ok? then old(trials)[cell := r.value] else old(trials)
    {
      if expected > 0 {
        if cell !in trials {
          return Err(TrialMissing);
        }
        if trials[cell].version != expected {
          return Err(VersionConflict(trials[cell]));
        }
        trials := trials[cell := Stored(a, expected + 1)];
        return Ok(trials[cell]);
      }
      if cell in trials {
        return Err(VersionConflict(trials[cell]));
      }
      trials := trials[cell := Stored(a, 1)];
      return Ok(trials[cell]);
    }

    method ListAttempts(unit: string, athlete: string) returns (series: seq<Attempt>)
      ensures series == SeriesOf(meet, trials, unit, athlete)
    {
      series := [];
      var n := SeriesLength(meet, unit);
      for i := 0 to n
        invariant series == SeriesUpTo(trials, unit, athlete, i)
      {
        var cell := Cell(unit, athlete, i + 1);
        if cell in trials {
          series := series + [Attempt(i + 1, trials[cell].kind, trials[cell].mark, trials[cell].wind)];
        }
      }
    }

    method SaveResult(unit: string, athlete: string, r: Settled)
      modifies `results
      ensures results == Upsert(old(results), unit, athlete, r)
    {
      var version := if (unit, athlete) in results then results[(unit, athlete)].version + 1 else 1;
      results := results[(unit, athlete) := r.(version := version)];
    }

    // Settles the athlete's result from the stored series, if that can be rated.
    method SettleSeries(unit: string, athlete: string) returns (rated: bool)
      modifies `results
      ensures rated == Ratable(meet, unit, athlete, SeriesOf(meet, trials, unit, athlete))
      ensures results == if rated then Upsert(old(results), unit, athlete, SettledFrom(SeriesOf(meet, trials, unit, athlete)))
                         else old(results)
    {
      var series := ListAttempts(unit, athlete);
      rated := Ratable(meet, unit, athlete, series);
      if rated {
        SaveResult(unit, athlete, SettledFrom(series));
      }
    }

    // The trial and the result it settles, in one transaction.
    method SaveAndSettle(unit: string, input: Input, a: Attempt) returns (r: Result<StoredTrial, CaptureError>)
      modifies `trials, `results
      ensures (State(), r) == SaveChecked(meet, old(State()), unit, input, a)
    {
      var before := trials;
      r := SaveAttempt(CellOf(unit, input), a, input.expected);
      if r.Err? {
        return;
      }
      var rated := SettleSeries(unit, input.athlete);
      if !rated {
        trials := before;
        return Err(Unrated);
      }
    }

    method SaveFieldAttempt(unit: string, input: Input) returns (r: Result<StoredTrial, CaptureError>)
      modifies `trials, `results
      ensures (State(), r) == Capture.SaveFieldAttempt(meet, old(State()), unit, input)
      ensures Follows(meet, old(State()), State())
    {
      TrialFollows(meet, State(), unit, input);
      var a := Checked(meet, State(), unit, input);
      if a.Err? {
        return Err(a.error);
      }
      r := SaveAndSettle(unit, input, a.value);
    }

    // --- Replay ---

    method RecordCaptureOp(op: Op, unit: string, decision: Decision)
      modifies `ops
      ensures State() == Record(old(State()), op, unit, decision)
    {
      if op.id !in ops {
        ops := ops[op.id := OpRecord(unit, decision)];
      }
    }

    method RouteReconciliation(unit: string, from: Sender, op: Op, why: ReconcileReason) returns (r: Answer)
      modifies `items, `ops
      ensures (State(), r) == Route(old(State()), unit, from, op, why)
    {
      items := items + [Item(op.id, unit, why, PayloadOf(op), from.account, from.device,
                             from.stamp.generation, from.stamp.startList, Pending, "")];
      RecordCaptureOp(op, unit, Reconciled(why));
      r := Ok(Outcome(op.id, ReportReconciled(why), 0));
    }

    method ConcludeOp(row: Result<StoredTrial, CaptureError>, unit: string, from: Sender, op: Op) returns (r: Answer)
      modifies `items, `ops
      ensures (State(), r) == Conclude(old(State()), row, unit, from, op)
    {
      if row.Ok? {
        RecordCaptureOp(op, unit, Applied);
        return Ok(Outcome(op.id, ReportApplied, row.value.version));
      }
      if row.error.VersionConflict? {
        if SameAttempt(row.error.current, op) {
          RecordCaptureOp(op, unit, Applied);
          return Ok(Outcome(op.id, ReportDuplicate, row.error.current.version));
        }
        r := RouteReconciliation(unit, from, op, Diverged);
        return;
      }
      var reason := ClassifyRejection(row.error);
      if reason.None? {
        return Err(CaptureFault(row.error));
      }
      RecordCaptureOp(op, unit, Rejected(reason.value));
      r := Ok(Outcome(op.id, ReportRejected(reason.value), 0));
    }

    method ReplayOne(unit: string, from: Sender, op: Op) returns (r: Answer)
      modifies `trials, `results, `items, `ops
      ensures (State(), r) == Replay.ReplayOne(meet, old(State()), unit, from, op)
      ensures meet.IsUnit(unit, Horizontal) ==> Follows(meet, old(State()), State())
    {
      FollowsStep(meet, State(), ReplayOp(unit, from, op));
      if op.id in ops {
        return Acknowledge(State(), unit, op);
      }
      match Decide(State(), unit, from.stamp)
      case ApplyIt =>
        var row := SaveFieldAttempt(unit, op.input);
        assert State() == ReplayCut(meet, old(State()), unit, from, op);
        r := ConcludeOp(row, unit, from, op);
      case RouteStartList =>
        r := RouteReconciliation(unit, from, op, StartListChange);
      case RouteStale =>
        r := RouteReconciliation(unit, from, op, StaleCheckout);
    }

    method ReplayCaptureBatch(unit: string, from: Sender, batch: seq<Op>)
      returns (r: Result<seq<Outcome>, ReplayError>)
      modifies `trials, `results, `items, `ops
      ensures (State(), r) == ReplayBatch(meet, old(State()), unit, from, batch)
      ensures Follows(meet, old(State()), State())
    {
      FollowsItself(meet, State());
      if !meet.IsUnit(unit, Horizontal) {
        return Err(NotReplayable);
      }
      var outcomes: seq<Outcome> := [];
      var i := 0;
      assert batch[0..] == batch;
      ContinueNothing(ReplayAll(meet, State(), unit, from, batch));
      while i < |batch|
        invariant 0 <= i <= |batch|
        invariant ReplayAll(meet, old(State()), unit, from, batch)
                  == Continue(outcomes, ReplayAll(meet, State(), unit, from, batch[i..]))
        invariant Follows(meet, old(State()), State())
      {
        ghost var before := State();
        assert batch[i..][0] == batch[i] && batch[i..][1..] == batch[i + 1..];
        var answer := ReplayOne(unit, from, batch[i]);
        FollowsThen(meet, old(State()), before, State());
        if answer.Err? {
          return Err(answer.error);
        }
        ghost var rest := ReplayAll(meet, State(), unit, from, batch[i + 1..]);
        ContinueStep(outcomes, answer.value, rest);
        outcomes := outcomes + [answer.value];
        i := i + 1;
      }
      assert outcomes + [] == outcomes;
      return Ok(outcomes);
    }

    // --- The office ---

    method ResolveReconciliation(index: nat, apply: bool, account: string) returns (r: Result<(), ResolveError>)
      modifies `trials, `results, `items
      ensures (State(), r) == Resolve(meet, old(State()), index, apply, account)
      ensures Follows(meet, old(State()), State())
    {
      FollowsStep(meet, State(), ResolveItem(index, apply, account));
      if index >= |items| {
        return Err(NoSuchItem);
      }
      var item := items[index];
      if !item.status.Pending? {
        return Err(NotPending);
      }
      if apply {
        var row := SaveFieldAttempt(item.unit, ItemInput(State(), item));
        if row.Err? {
          return Err(ApplyFailed(row.error));
        }
      }
      items := items[index := item.(status := if apply then ItemApplied else ItemDiscarded, resolvedBy := account)];
      return Ok(());
    }

    method PostList(unit: string, now: int)
      modifies `announcements
      ensures State() == R.Announce(old(State()), unit, now)
    {
      var before := if unit in announcements then announcements[unit] else [];
      announcements := announcements[unit := before + [now]];
    }

    method AnnounceUnitResults(unit: string, now: int) returns (r: R.Done)
      modifies `announcements
      ensures (State(), r) == R.AnnounceUnitResults(meet, old(State()), unit, now)
      ensures Follows(meet, old(State()), State())
    {
      FollowsStep(meet, State(), AnnounceUnit(unit, now));
      if unit !in meet.units {
        return Err(R.UnknownUnit);
      }
      PostList(unit, now);
      return Ok(());
    }

    method CorrectResult(unit: string, athlete: string, c: R.Correction, now: int) returns (r: R.Done)
      modifies `results, `announcements
      ensures (State(), r) == R.CorrectResult(meet, old(State()), unit, athlete, c, now)
      ensures Follows(meet, old(State()), State())
    {
      CorrectionFollows(meet, State(), unit, athlete, c, now);
      if TrimSpace(c.reason) == "" {
        return Err(R.ReasonRequired);
      }
      if unit !in meet.units {
        return Err(R.UnknownUnit);
      }
      if meet.units[unit].family == OtherFamily {
        return Err(R.WrongFamily);
      }
      if athlete !in meet.roster {
        return Err(R.NotRegistered);
      }
      if R.ComputeProtestState(State(), unit, now).official && TrimSpace(c.escalation) == "" {
        return Err(R.EscalationRequired);
      }
      var row := R.CorrectedRow(meet.units[unit].family, c);
      if row.Err? {
        return Err(row.error);
      }
      if row.value.status == Unset && !meet.Rates(unit, athlete, row.value.timing, row.value.mark) {
        return Err(R.Unrated);
      }
      AmendAndPost(unit, athlete, row.value, now);
      return Ok(());
    }

    method AmendAndPost(unit: string, athlete: string, row: Settled, now: int)
      modifies `results, `announcements
      ensures State() == R.Announce(old(State()).(results := Upsert(old(results), unit, athlete, row)), unit, now)
    {
      SaveResult(unit, athlete, row);
      PostList(unit, now);
    }

    // --- Track units ---

    method SaveOptimistic(unit: string, athlete: string, row: Settled, expected: int) returns (r: R.Done)
      modifies `results
      ensures (State(), r) == R.SaveOptimistic(old(State()), unit, athlete, row, expected)
    {
      if expected > 0 && (unit, athlete) !in results {
        return Err(R.Missing);
      }
      if expected > 0 && results[(unit, athlete)].version != expected {
        return Err(R.Conflicting);
      }
      if expected <= 0 && (unit, athlete) in results {
        return Err(R.Conflicting);
      }
      SaveResult(unit, athlete, row);
      return Ok(());
    }

    method SaveTrackResult(unit: string, input: R.TrackInput) returns (r: R.Done)
      modifies `results
      ensures (State(), r) == R.SaveTrackResult(meet, old(State()), unit, input)
      ensures Follows(meet, old(State()), State())
    {
      TrackFollows(meet, State(), unit, input);
      if unit !in meet.units {
        return Err(R.UnknownUnit);
      }
      if meet.units[unit].family != Track {
        return Err(R.WrongFamily);
      }
      if input.athlete !in meet.roster {
        return Err(R.NotRegistered);
      }
      if State().Announced(unit) {
        return Err(R.Announced);
      }
      var row := R.CapturedRow(meet, unit, input);
      if row.Err? {
        return Err(row.error);
      }
      if input.expected.Some? {
        r := SaveOptimistic(unit, input.athlete, row.value, input.expected.value);
        return;
      }
      SaveResult(unit, input.athlete, row.value);
      return Ok(());
    }

    method BulkMarkRemainingDNS(unit: string) returns (r: Result<nat, R.ResultError>)
      modifies `results
      ensures (State(), r) == R.BulkMarkRemainingDNS(meet, old(State()), unit)
      ensures Follows(meet, old(State()), State())
    {
      DNSFollows(meet, State(), unit);
      if unit !in meet.units {
        return Err(R.UnknownUnit);
      }
      if meet.units[unit].family != Track {
        return Err(R.WrongFamily);
      }
      if State().Announced(unit) {
        return Err(R.Announced);
      }
      var open := UnresultedEntries(unit);
      var n := MarkDNS(unit, open);
      return Ok(n);
    }

    // One transaction for each entry, which a result captured meanwhile wins.
    method MarkDNS(unit: string, open: seq<string>) returns (n: nat)
      modifies `results
      ensures (State(), n) == R.MarkDNS(old(State()), unit, open)
    {
      n := 0;
      for i := 0 to |open|
        invariant (State(), n) == R.MarkDNS(old(State()), unit, open[..i])
      {
        assert open[..i + 1][..i] == open[..i];
        var done := SaveOptimistic(unit, open[i], R.DNS_ROW, 0);
        if done.Ok? {
          n := n + 1;
        }
      }
      assert open[..|open|] == open;
    }

    method UnresultedEntries(unit: string) returns (open: seq<string>)
      ensures open == R.Unresulted(State(), unit, meet.roster)
    {
      open := [];
      for i := 0 to |meet.roster|
        invariant open == R.Unresulted(State(), unit, meet.roster[..i])
      {
        assert meet.roster[..i + 1][..i] == meet.roster[..i];
        if (unit, meet.roster[i]) !in results {
          open := open + [meet.roster[i]];
        }
      }
      assert meet.roster[..|meet.roster|] == meet.roster;
    }

    // --- Vertical jumps ---

    method SetVerticalHeights(unit: string, list: seq<string>, expected: int) returns (r: R.Done)
      modifies `heights
      ensures (State(), r) == R.SetHeights(meet, old(State()), unit, list, expected)
      ensures Follows(meet, old(State()), State())
    {
      FollowsStep(meet, State(), SetHeights(unit, list, expected));
      if unit !in meet.units {
        return Err(R.UnknownUnit);
      }
      if meet.units[unit].family != VerticalJump {
        return Err(R.WrongFamily);
      }
      if list == [] {
        return Err(R.NoHeights);
      }
      if expected > 0 {
        if unit !in heights {
          return Err(R.Missing);
        }
        if !(heights[unit].heights <= list) {
          return Err(R.NotExtended);
        }
        if heights[unit].version != expected {
          return Err(R.Conflicting);
        }
      }
      var version := if unit in heights then heights[unit].version + 1 else 1;
      heights := heights[unit := HeightList(list, version)];
      return Ok(());
    }

    method ListBars(unit: string, athlete: string) returns (trials: seq<V.Trial>)
      ensures trials == R.BarsOf(bars, unit, athlete)
    {
      trials := [];
      for height := 0 to R.HeightCount(bars, unit, athlete)
        invariant trials == R.BarsUpTo(bars, unit, athlete, height)
      {
        var at: seq<V.Trial> := [];
        for number := 0 to 3
          invariant at == R.BarsAt(bars, unit, athlete, height, number)
        {
          var cell := BarCell(unit, athlete, height, number + 1);
          if cell in bars {
            at := at + [V.Trial(height, number + 1, bars[cell].kind)];
          }
        }
        trials := trials + at;
      }
    }

    method SaveVerticalTrial(unit: string, input: R.BarInput) returns (r: R.Done)
      modifies `bars, `results
      ensures (State(), r) == R.SaveVerticalTrial(meet, old(State()), unit, input)
      ensures Follows(meet, old(State()), State())
    {
      BarFollows(meet, State(), unit, input);
      if State().Announced(unit) {
        return Err(R.Announced);
      }
      if unit !in meet.units {
        return Err(R.UnknownUnit);
      }
      if meet.units[unit].family != VerticalJump {
        return Err(R.WrongFamily);
      }
      if input.athlete !in meet.roster {
        return Err(R.NotRegistered);
      }
      if unit !in heights {
        return Err(R.NoHeights);
      }
      var progression, t := heights[unit].heights, input.trial;
      if !(0 <= t.height < |progression|) || !V.ValidTrial(t) {
        return Err(R.BadMark);
      }
      r := SaveBar(unit, input, progression);
    }

    method SaveBar(unit: string, input: R.BarInput, progression: seq<string>) returns (r: R.Done)
      modifies `bars, `results
      ensures (State(), r) == R.SaveBar(meet, old(State()), unit, input, progression)
    {
      var t := input.trial;
      var cell := BarCell(unit, input.athlete, t.height, t.number);
      var version := 1;
      if input.expected > 0 {
        if cell !in bars {
          return Err(R.Missing);
        }
        if bars[cell].version != input.expected {
          return Err(R.Conflicting);
        }
        version := input.expected + 1;
      } else if cell in bars {
        return Err(R.Conflicting);
      }
      var before := bars;
      bars := bars[cell := StoredBar(t.kind, version)];
      r := SettleTrials(unit, input.athlete, progression);
      if r.Err? {
        bars := before;
      }
    }

    // Settles the athlete's result from the stored bar trials, if it can be.
    method SettleTrials(unit: string, athlete: string, progression: seq<string>) returns (r: R.Done)
      modifies `results
      ensures var settled := R.SettleBars(meet, unit, athlete, progression, R.BarsOf(bars, unit, athlete));
              if settled.Err? then r == Err(settled.error) && results == old(results)
              else r == Ok(()) && results == Upsert(old(results), unit, athlete, settled.value)
    {
      var trials := ListBars(unit, athlete);
      var settled := R.SettleBars(meet, unit, athlete, progression, trials);
      if settled.Err? {
        return Err(settled.error);
      }
      SaveResult(unit, athlete, settled.value);
      return Ok(());
    }

    // --- Timing files ---

    method ApplyTimingRow(unit: string, athlete: string, row: TimingRow, source: Source) returns (r: R.Done)
      modifies `results
      ensures (State(), r) == R.ApplyTimingRow(meet, old(State()), unit, athlete, row, source)
    {
      if unit !in meet.units {
        return Err(R.UnknownUnit);
      }
      var mark, timing := "", NoTiming;
      if row.mark != "" {
        var timed := R.TimedMark(row.mark, row.timing);
        if timed.Err? {
          return Err(timed.error);
        }
        mark, timing := timed.value, row.timing;
        if row.status == Unset && athlete !in meet.roster {
          return Err(R.NotRegistered);
        }
        if row.status == Unset && !meet.Scores(unit, athlete, timing, mark) {
          return Err(R.Unrated);
        }
      }
      if !meet.Stored(athlete) {
        return Err(R.NotStored);
      }
      SaveResult(unit, athlete, Settled(mark, timing, row.status, row.detail, source, 0));
      return Ok(());
    }

    method QueueConflict(unit: Option<string>, athlete: Option<string>, reason: ConflictReason, row: TimingRow, source: Source)
      modifies `conflicts
      ensures State() == R.Queue(old(State()), unit, athlete, reason, row, source)
    {
      conflicts := conflicts + [Conflict(unit, athlete, reason, row, source, Open)];
    }

    method ImportRow(row: TimingRow, source: Source) returns (r: Result<R.RowOutcome, R.ResultError>)
      modifies `results, `conflicts
      ensures (State(), r) == R.ImportRow(meet, old(State()), row, source)
      ensures Follows(meet, old(State()), State())
    {
      RowFollows(meet, State(), row, source);
      if row.blank {
        return Ok(R.Skipped);
      }
      var t := R.Resolved(meet, State(), row);
      if t.reason.Some? || t.unit.None? || t.athlete.None? {
        QueueConflict(t.unit, t.athlete, if t.reason.Some? then t.reason.value else UnknownBib, row, source);
        return Ok(R.Queued);
      }
      var done := ApplyTimingRow(t.unit.value, t.athlete.value, row, source);
      return if done.Ok? then Ok(R.Written) else Err(done.error);
    }

    method ImportTimingFile(rows: seq<TimingRow>, source: Source) returns (r: Result<R.Summary, R.ResultError>)
      modifies `results, `conflicts
      ensures (State(), r) == R.ImportRows(meet, old(State()), rows, source)
      ensures Follows(meet, old(State()), State())
    {
      FollowsItself(meet, State());
      var counts := R.Summary(0, 0);
      for i := 0 to |rows|
        invariant (State(), Ok(counts)) == R.ImportRows(meet, old(State()), rows[..i], source)
        invariant Follows(meet, old(State()), State())
      {
        ghost var before := State();
        assert rows[..i + 1][..i] == rows[..i];
        var outcome := ImportRow(rows[i], source);
        FollowsThen(meet, old(State()), before, State());
        if outcome.Err? {
          ImportStopped(meet, old(State()), rows, i + 1, source);
          return Err(outcome.error);
        }
        counts := R.Tally(counts, outcome.value);
      }
      assert rows[..|rows|] == rows;
      return Ok(counts);
    }

    // --- Queued timing rows ---

    method SetConflict(index: nat, status: ConflictStatus) returns (r: R.Done)
      requires index < |conflicts|
      modifies `conflicts
      ensures (State(), r) == R.SetConflict(old(State()), index, status)
    {
      if !conflicts[index].status.Open? {
        return Err(R.NotOpen);
      }
      conflicts := conflicts[index := conflicts[index].(status := status)];
      return Ok(());
    }

    method WriteChoice(c: Conflict, choice: R.Choice, now: int) returns (r: R.Done)
      modifies `results, `announcements
      ensures (State(), r) == R.WriteChoice(meet, old(State()), c, choice, now)
    {
      if c.unit.None? {
        return Err(R.UnitUnresolved);
      }
      var unit, athlete := c.unit.value, R.ChosenAthlete(c, choice);
      if athlete == "" {
        return Err(R.ReassignRequired);
      }
      if c.reason.UnmappedStatus? && choice.status == Unset {
        return Err(R.StatusRequired);
      }
      var row := R.ChosenRow(State(), c, choice);
      if !State().Announced(unit) {
        r := ApplyTimingRow(unit, athlete, row, c.source);
        return;
      }
      if TrimSpace(choice.reason) == "" {
        return Err(R.ReasonRequired);
      }
      r := CorrectResult(unit, athlete, R.CorrectionFrom(row, choice), now);
    }

    method ResolveTimingConflict(index: nat, choice: R.Choice, now: int) returns (r: R.Done)
      modifies `results, `conflicts, `announcements
      ensures (State(), r) == R.ResolveTimingConflict(meet, old(State()), index, choice, now)
      ensures Follows(meet, old(State()), State())
    {
      FollowsStep(meet, State(), ResolveTiming(index, choice, now));
      if index >= |conflicts| {
        return Err(R.NoSuchConflict);
      }
      if choice.action.Keep? {
        r := SetConflict(index, Kept);
        return;
      }
      if choice.action.Discard? {
        r := SetConflict(index, Discarded);
        return;
      }
      r := WriteChoice(conflicts[index], choice, now);
      if r.Err? {
        return;
      }
      r := SetConflict(index, if choice.action.Merge? then Merged else Replaced);
    }
  }

  // Each capturing request is one step of the protocol.

  lemma BarFollows(meet: Meet, db: Db, unit: string, input: R.BarInput)
    ensures Follows(meet, db, R.SaveVerticalTrial(meet, db, unit, input).0)
  {
    FollowsStep(meet, db, CaptureBar(unit, input));
  }

  lemma TrialFollows(meet: Meet, db: Db, unit: string, input: Input)
    ensures Follows(meet, db, SaveFieldAttempt(meet, db, unit, input).0)
  {
    FollowsStep(meet, db, CaptureTrial(unit, input));
  }

  lemma DNSFollows(meet: Meet, db: Db, unit: string)
    ensures Follows(meet, db, R.BulkMarkRemainingDNS(meet, db, unit).0)
  {
    FollowsStep(meet, db, BulkDNS(unit));
  }

  lemma TrackFollows(meet: Meet, db: Db, unit: string, input: R.TrackInput)
    ensures Follows(meet, db, R.SaveTrackResult(meet, db, unit, input).0)
  {
    FollowsStep(meet, db, CaptureTrack(unit, input));
  }

  lemma CorrectionFollows(meet: Meet, db: Db, unit: string, athlete: string, c: R.Correction, now: int)
    ensures Follows(meet, db, R.CorrectResult(meet, db, unit, athlete, c, now).0)
  {
    FollowsStep(meet, db, Correct(unit, athlete, c, now));
  }

  lemma RowFollows(meet: Meet, db: Db, row: TimingRow, source: Source)
    ensures Follows(meet, db, R.ImportRow(meet, db, row, source).0)
  {
    FollowsStep(meet, db, ImportTimingRow(row, source));
  }

  // Outcomes already collected, followed by what a replay of the rest answers.
  ghost function Continue(done: seq<Outcome>, rest: (Db, Result<seq<Outcome>, ReplayError>))
    : (Db, Result<seq<Outcome>, ReplayError>)
  {
    (rest.0, if rest.1.Err? then rest.1 else Ok(done + rest.1.value))
  }

  lemma ContinueNothing(rest: (Db, Result<seq<Outcome>, ReplayError>))
    ensures Continue([], rest) == rest
  {
    if rest.1.Ok? { assert [] + rest.1.value == rest.1.value; }
  }

  lemma ContinueStep(done: seq<Outcome>, next: Outcome, rest: (Db, Result<seq<Outcome>, ReplayError>))
    ensures Continue(done, Continue([next], rest)) == Continue(done + [next], rest)
  {
    if rest.1.Ok? { assert done + ([next] + rest.1.value) == (done + [next]) + rest.1.value; }
  }

  // Once a row fails, later rows change neither tables nor answer.
  lemma {:induction false} ImportStopped(meet: Meet, db: Db, rows: seq<TimingRow>, n: nat, source: Source)
    requires n <= |rows| && R.ImportRows(meet, db, rows[..n], source).1.Err?
    ensures R.ImportRows(meet, db, rows, source) == R.ImportRows(meet, db, rows[..n], source)
    decreases |rows| - n
  {
    if n < |rows| {
      assert rows[..n + 1][..n] == rows[..n];
      ImportStopped(meet, db, rows, n + 1, source);
    } else {
      assert rows[..n] == rows;
    }
  }
}
