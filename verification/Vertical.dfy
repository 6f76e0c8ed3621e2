// Vertical jumps: the elimination rule, the best cleared height, and ranking by countback.
module Vertical {
  import opened Basics
  import opened Sorting
  import opened Vocabulary

  // One trial at one bar height; kind is one of Cleared, Failed, Passed, Retired.
  datatype Trial = Trial(height: int, number: int, kind: Status)

  datatype VerticalSeries = VerticalSeries(athlete: string, trials: seq<Trial>)

  predicate ValidTrial(t: Trial) {
    && t.height >= 0 && 1 <= t.number <= 3
    && (t.kind.Cleared? || t.kind.Failed? || t.kind.Passed? || t.kind.Retired?)
  }

  predicate HasRetired(trials: seq<Trial>) {
    exists t <- trials :: t.kind.Retired?
  }

  // --- Elimination ---

  predicate Earlier(a: Trial, b: Trial) {
    a.height < b.height || (a.height == b.height && a.number < b.number)
  }

  function InOrder(trials: seq<Trial>): seq<Trial> {
    StableSort(trials, Earlier)
  }

  // Three failures i < j < k with no clearance between them and no retirement before the last.
  ghost predicate ThreeFailures(walk: seq<Trial>, i: int, j: int, k: int) {
    && 0 <= i < j < k < |walk|
    && walk[i].kind.Failed? && walk[j].kind.Failed? && walk[k].kind.Failed?
    && (forall m :: i < m < k ==> !walk[m].kind.Cleared?)
    && (forall m :: 0 <= m < k ==> !walk[m].kind.Retired?)
  }

  ghost predicate EliminatedIn(walk: seq<Trial>) {
    exists i, j, k :: ThreeFailures(walk, i, j, k)
  }

  // Failures since the last clearance among the first n trials.
  function Streak(walk: seq<Trial>, n: nat): nat
    requires n <= |walk|
  {
    if n == 0 || walk[n - 1].kind.Cleared? then 0
    else Streak(walk, n - 1) + if walk[n - 1].kind.Failed? then 1 else 0
  }

  // A streak of s > 0 is backed by s failures with no clearance after the first of them.
  lemma {:induction false} StreakWitness(walk: seq<Trial>, n: nat)
    requires n <= |walk|
    ensures Streak(walk, n) >= 1 ==> exists i :: 0 <= i < n && walk[i].kind.Failed? && ClearFree(walk, i, n)
    ensures Streak(walk, n) >= 2 ==>
              exists i, j :: 0 <= i < j < n && walk[i].kind.Failed? && walk[j].kind.Failed? && ClearFree(walk, i, n)
  {
    if n > 0 && !walk[n - 1].kind.Cleared? {
      StreakWitness(walk, n - 1);
      if walk[n - 1].kind.Failed? {
        assert ClearFree(walk, n - 1, n);
        if Streak(walk, n - 1) >= 1 {
          var i :| 0 <= i < n - 1 && walk[i].kind.Failed? && ClearFree(walk, i, n - 1);
          assert ClearFree(walk, i, n);
        }
      } else {
        if Streak(walk, n) >= 1 {
          var i :| 0 <= i < n - 1 && walk[i].kind.Failed? && ClearFree(walk, i, n - 1);
          assert ClearFree(walk, i, n);
        }
        if Streak(walk, n) >= 2 {
          var i, j :| 0 <= i < j < n - 1 && walk[i].kind.Failed? && walk[j].kind.Failed? && ClearFree(walk, i, n - 1);
          assert ClearFree(walk, i, n);
        }
      }
    }
  }

  ghost predicate ClearFree(walk: seq<Trial>, i: int, n: int) {
    0 <= i <= n <= |walk| && forall m :: i <= m < n ==> !walk[m].kind.Cleared?
  }

  // Failures after i with no clearance since are all in the streak.
  lemma {:induction false} StreakCounts(walk: seq<Trial>, i: nat, n: nat)
    requires i <= n <= |walk| && ClearFree(walk, i, n)
    ensures Streak(walk, n) >= Streak(walk, i)
    ensures i < n && walk[i].kind.Failed? ==> Streak(walk, n) > Streak(walk, i)
  {
    if i < n {
      assert ClearFree(walk, i, n - 1);
      StreakCounts(walk, i, n - 1);
    }
  }

  method Eliminated(s: VerticalSeries) returns (out: bool)
    ensures out <==> EliminatedIn(InOrder(s.trials))
  {
    var walk := InOrder(s.trials);
    var streak: nat := 0;
    for n := 0 to |walk|
      invariant streak == Streak(walk, n) && streak < 3
      invariant forall m :: 0 <= m < n ==> !walk[m].kind.Retired?
      invariant forall i, j, k :: ThreeFailures(walk, i, j, k) ==> n <= k
    {
      match walk[n].kind {
      case Cleared => streak := 0;
      case Failed =>
        streak := streak + 1;
        if streak >= 3 {
          ThirdFailure(walk, n);
          return true;
        }
      case Retired =>
        return false;
      case _ =>
      }
      NoThirdFailure(walk, n);
    }
    return false;
  }

  lemma ThirdFailure(walk: seq<Trial>, n: nat)
    requires n < |walk| && Streak(walk, n) == 2 && walk[n].kind.Failed?
    requires forall m :: 0 <= m < n ==> !walk[m].kind.Retired?
    ensures EliminatedIn(walk)
  {
    StreakWitness(walk, n);
    var i, j :| 0 <= i < j < n && walk[i].kind.Failed? && walk[j].kind.Failed? && ClearFree(walk, i, n);
    assert ThreeFailures(walk, i, j, n);
  }

  lemma NoThirdFailure(walk: seq<Trial>, n: nat)
    requires n < |walk| && Streak(walk, n + 1) < 3
    ensures forall i, j :: !ThreeFailures(walk, i, j, n)
  {
    forall i, j | ThreeFailures(walk, i, j, n) ensures false {
      assert ClearFree(walk, i, j) && ClearFree(walk, j, n) && ClearFree(walk, n, n + 1);
      StreakCounts(walk, n, n + 1);
      StreakCounts(walk, j, n);
      StreakCounts(walk, i, j);
    }
  }

  // --- Best height and series status ---

  ghost predicate IsBestHeight(trials: seq<Trial>, best: int) {
    && (exists t <- trials :: t.kind.Cleared? && t.height == best)
    && (forall t <- trials :: t.kind.Cleared? ==> t.height <= best)
  }

  function HighestCleared(trials: seq<Trial>): int {
    if trials == [] then -1 else
    var rest, t := HighestCleared(trials[..|trials| - 1]), trials[|trials| - 1];
    if t.kind.Cleared? && t.height > rest then t.height else rest
  }

  // -1 when no height was cleared.
  method BestHeightIdx(trials: seq<Trial>) returns (best: int)
    ensures best == HighestCleared(trials)
    ensures best >= 0 ==> IsBestHeight(trials, best)
    ensures best < 0 ==> best == -1 && forall t <- trials :: t.kind.Cleared? ==> t.height < 0
  {
    best := -1;
    for i := 0 to |trials|
      invariant best == HighestCleared(trials[..i])
      invariant best >= 0 ==> IsBestHeight(trials[..i], best)
      invariant best < 0 ==> best == -1 && forall t <- trials[..i] :: t.kind.Cleared? ==> t.height < 0
    {
      assert trials[..i + 1] == trials[..i] + [trials[i]] && trials[..i + 1][..i] == trials[..i];
      if trials[i].kind.Cleared? && trials[i].height > best {
        best := trials[i].height;
      }
    }
    assert trials[..|trials|] == trials;
  }

  function SeriesStatus(trials: seq<Trial>): Status {
    if HasRetired(trials) then Retired
    else if HighestCleared(trials) < 0 && trials != [] then NM
    else Unset
  }

  function AttemptsAt(trials: seq<Trial>, height: int): nat {
    if trials == [] then 0 else (if trials[0].height == height then 1 else 0) + AttemptsAt(trials[1..], height)
  }

  function TotalFailures(trials: seq<Trial>): nat {
    if trials == [] then 0 else (if trials[0].kind.Failed? then 1 else 0) + TotalFailures(trials[1..])
  }

  // --- Ranking by countback ---

  datatype Standing = Standing(
    athlete: string, best: int, attemptsAtBest: nat, failures: nat,
    eliminated: bool, retired: bool, rank: nat, tieForFirst: bool)

  // Positive when a ranks ahead: height, then fewer attempts there, then fewer failures.
  function CompareVertical(a: Standing, b: Standing): int {
    var ar, br := a.best >= 0, b.best >= 0;
    if ar && !br then 1
    else if !ar && br then -1
    else if !ar && !br then 0
    else if a.best != b.best then a.best - b.best
    else if a.attemptsAtBest != b.attemptsAtBest then b.attemptsAtBest - a.attemptsAtBest
    else b.failures - a.failures
  }

  predicate Ahead(a: Standing, b: Standing) {
    CompareVertical(a, b) > 0
  }

  predicate ListedBefore(a: Standing, b: Standing) {
    var c := CompareVertical(a, b);
    if c != 0 then c > 0 else StringLess(a.athlete, b.athlete)
  }

  lemma RowOrders()
    ensures WeakOrder(Ahead) && WeakOrder(ListedBefore)
  {
    forall a, b | ListedBefore(a, b) ensures !ListedBefore(b, a) {
      StringLessAsymmetric(a.athlete, b.athlete);
    }
    forall a, b, c | !ListedBefore(a, b) && !ListedBefore(b, c) ensures !ListedBefore(a, c) {
      if CompareVertical(a, b) == 0 && CompareVertical(b, c) == 0 {
        StringLessNegTransitive(a.athlete, b.athlete, c.athlete);
      }
    }
  }

  ghost function RowOf(s: VerticalSeries): Standing {
    var best := HighestCleared(s.trials);
    Standing(s.athlete, best, if best >= 0 then AttemptsAt(s.trials, best) else 0, TotalFailures(s.trials),
             EliminatedIn(InOrder(s.trials)), HasRetired(s.trials), 0, false)
  }

  ghost function Rowing(): VerticalSeries -> Standing { s => RowOf(s) }

  // Series t ranks strictly ahead of series s by countback.
  ghost predicate Better(t: VerticalSeries, s: VerticalSeries) {
    Ahead(RowOf(t), RowOf(s))
  }

  ghost function SortedRows(series: seq<VerticalSeries>): seq<Standing> {
    StableSort(Map(Rowing(), series), ListedBefore)
  }

  function RankAmong(rows: seq<Standing>, r: Standing): nat {
    if r.best < 0 then 0 else Place(rows, r, Ahead)
  }

  // How many rows of part hold rank 1 among all.
  function Leaders(all: seq<Standing>, part: seq<Standing>): nat {
    if part == [] then 0 else (if RankAmong(all, part[0]) == 1 then 1 else 0) + Leaders(all, part[1..])
  }

  // A row's line: its rank, and whether it shares first place with somebody.
  function LineAmong(rows: seq<Standing>, r: Standing): Standing {
    var rank := RankAmong(rows, r);
    r.(rank := rank, tieForFirst := rank == 1 && Leaders(rows, rows) >= 2)
  }

  ghost function LineIn(rows: seq<Standing>): Standing -> Standing {
    r => LineAmong(rows, r)
  }

  ghost function OfficialTable(series: seq<VerticalSeries>): seq<Standing> {
    Map(LineIn(SortedRows(series)), SortedRows(series))
  }

  method CollectRows(series: seq<VerticalSeries>) returns (rows: seq<Standing>)
    ensures |rows| == |series| && forall k :: 0 <= k < |series| ==> rows[k] == RowOf(series[k])
  {
    rows := [];
    for i := 0 to |series|
      invariant |rows| == i
      invariant forall k :: 0 <= k < i ==> rows[k] == RowOf(series[k])
    {
      var s := series[i];
      var eliminated := Eliminated(s);
      var best := BestHeightIdx(s.trials);
      var attempts := if best >= 0 then AttemptsAt(s.trials, best) else 0;
      rows := rows + [Standing(s.athlete, best, attempts, TotalFailures(s.trials), eliminated,
                               HasRetired(s.trials), 0, false)];
    }
  }

  lemma RankStep(rows: seq<Standing>, i: nat)
    requires Ordered(rows, Ahead) && i < |rows| && rows[i].best >= 0
    ensures i > 0 && rows[i - 1].best >= 0 && CompareVertical(rows[i - 1], rows[i]) == 0 ==>
              RankAmong(rows, rows[i]) == RankAmong(rows, rows[i - 1])
    ensures i == 0 || rows[i - 1].best < 0 || CompareVertical(rows[i - 1], rows[i]) != 0 ==>
              RankAmong(rows, rows[i]) == i + 1
  {
    RowOrders();
    PlaceStep(rows, i, Ahead);
    if i > 0 { assert !Ahead(rows[i], rows[i - 1]); }
  }

  method AssignRanks(rows: seq<Standing>) returns (out: seq<Standing>)
    requires Ordered(rows, Ahead)
    ensures |out| == |rows|
    ensures forall k :: 0 <= k < |rows| ==> out[k] == rows[k].(rank := RankAmong(rows, rows[k]))
  {
    out := [];
    for i := 0 to |rows|
      invariant |out| == i
      invariant forall k :: 0 <= k < i ==> out[k] == rows[k].(rank := RankAmong(rows, rows[k]))
    {
      var r := rows[i];
      var rank := 0;
      if r.best >= 0 {
        RankStep(rows, i);
        if i > 0 && rows[i - 1].best >= 0 && CompareVertical(rows[i - 1], r) == 0 {
          rank := out[i - 1].rank;
        } else {
          rank := i + 1;
        }
      }
      out := out + [r.(rank := rank)];
    }
  }

  method FlagSharedFirst(rows: seq<Standing>, ranked: seq<Standing>) returns (out: seq<Standing>)
    requires Ordered(rows, Ahead) && |ranked| == |rows|
    requires forall k :: 0 <= k < |rows| ==>
               !rows[k].tieForFirst && ranked[k] == rows[k].(rank := RankAmong(rows, rows[k]))
    ensures |out| == |rows| && forall k :: 0 <= k < |rows| ==> out[k] == LineAmong(rows, rows[k])
  {
    out := ranked;
    var i := 0;
    FirstsLead(rows);
    if |out| > 1 && out[0].rank == 1 && out[1].rank == 1 {
      while i < |out| && out[i].rank == 1
        invariant 0 <= i <= |out| == |rows|
        invariant forall k :: 0 <= k < |rows| ==>
                    out[k] == rows[k].(rank := RankAmong(rows, rows[k]), tieForFirst := k < i)
        invariant forall k :: 0 <= k < i ==> RankAmong(rows, rows[k]) == 1
      {
        out := out[i := out[i].(tieForFirst := true)];
        i := i + 1;
      }
      LeadersPrefix(rows, rows, i);
    } else {
      LeadersPrefix(rows, rows, if |rows| > 0 && out[0].rank == 1 then 1 else 0);
    }
  }

  lemma {:induction false} LeadersPrefix(all: seq<Standing>, part: seq<Standing>, n: nat)
    requires n <= |part|
    requires forall k :: 0 <= k < |part| ==> (RankAmong(all, part[k]) == 1 <==> k < n)
    ensures Leaders(all, part) == n
  {
    if part != [] {
      assert RankAmong(all, part[0]) == 1 <==> 0 < n;
      LeadersPrefix(all, part[1..], if n == 0 then 0 else n - 1);
    }
  }

  // Rank 1 is held by a prefix of the table.
  lemma FirstsLead(rows: seq<Standing>)
    requires Ordered(rows, Ahead)
    ensures forall i, j :: 0 <= i <= j < |rows| && RankAmong(rows, rows[j]) == 1 ==> RankAmong(rows, rows[i]) == 1
  {
    RowOrders();
    forall i, j | 0 <= i <= j < |rows| && RankAmong(rows, rows[j]) == 1 ensures RankAmong(rows, rows[i]) == 1 {
      if i < j {
        assert !Ahead(rows[j], rows[i]);
        PlaceMono(rows, rows[i], rows[j], Ahead);
      }
    }
  }

  method RankVertical(series: seq<VerticalSeries>) returns (out: seq<Standing>)
    ensures out == OfficialTable(series)
    ensures multiset(out) == multiset(Map(MeaningIn(series), series))
    ensures forall s <- series :: Says(series, s, StandingOf(series, s))
    ensures BestFirst(out)
  {
    var unsorted := CollectRows(series);
    assert unsorted == Map(Rowing(), series);
    var rows := StableSort(unsorted, ListedBefore);
    SortedRowsOrdered(series);
    forall r <- rows ensures r.rank == 0 && !r.tieForFirst {
      SortMembers(unsorted, ListedBefore);
    }
    var ranked := AssignRanks(rows);
    out := FlagSharedFirst(rows, ranked);
    assert out == OfficialTable(series);
    TableMeaning(series);
    TableOrdered(series);
    forall s <- series ensures Says(series, s, StandingOf(series, s)) { CountbackWrittenOut(series, s); }
  }

  lemma SortedRowsOrdered(series: seq<VerticalSeries>)
    ensures Ordered(SortedRows(series), Ahead)
    ensures multiset(SortedRows(series)) == multiset(Map(Rowing(), series))
  {
    var unsorted, rows := Map(Rowing(), series), SortedRows(series);
    RowOrders();
    SortOrders(unsorted, ListedBefore);
    SortPermutes(unsorted, ListedBefore);
    forall i, j | 0 <= i < j < |rows| ensures !Ahead(rows[j], rows[i]) {
      assert !ListedBefore(rows[j], rows[i]);
    }
  }

  // --- What the table means ---

  // How many series have nobody strictly better and a cleared height.
  ghost function LeadingSeries(all: seq<VerticalSeries>, part: seq<VerticalSeries>): nat {
    if part == [] then 0
    else (if SeriesRank(all, part[0]) == 1 then 1 else 0) + LeadingSeries(all, part[1..])
  }

  // One more than the number of series strictly better; 0 without a cleared height.
  ghost function SeriesRank(all: seq<VerticalSeries>, s: VerticalSeries): nat {
    if HighestCleared(s.trials) < 0 then 0 else 1 + CountBetter(all, s)
  }

  ghost function CountBetter(all: seq<VerticalSeries>, s: VerticalSeries): nat {
    if all == [] then 0 else (if Better(all[0], s) then 1 else 0) + CountBetter(all[1..], s)
  }

  ghost function StandingOf(series: seq<VerticalSeries>, s: VerticalSeries): Standing {
    var rank := SeriesRank(series, s);
    RowOf(s).(rank := rank, tieForFirst := rank == 1 && LeadingSeries(series, series) >= 2)
  }

  ghost function MeaningIn(series: seq<VerticalSeries>): VerticalSeries -> Standing {
    s => StandingOf(series, s)
  }

  lemma {:induction false} CountRows(all: seq<VerticalSeries>, s: VerticalSeries)
    ensures CountAhead(Map(Rowing(), all), RowOf(s), Ahead) == CountBetter(all, s)
  {
    if all != [] {
      CountRows(all[1..], s);
      assert Map(Rowing(), all)[1..] == Map(Rowing(), all[1..]);
    }
  }

  lemma RankMeaning(series: seq<VerticalSeries>, s: VerticalSeries)
    ensures RankAmong(SortedRows(series), RowOf(s)) == SeriesRank(series, s)
  {
    SortedRowsOrdered(series);
    PlacePermutation(SortedRows(series), Map(Rowing(), series), RowOf(s), Ahead);
    CountRows(series, s);
  }

  lemma {:induction false} LeadersMeaning(series: seq<VerticalSeries>, part: seq<VerticalSeries>)
    ensures Leaders(SortedRows(series), Map(Rowing(), part)) == LeadingSeries(series, part)
  {
    if part != [] {
      RankMeaning(series, part[0]);
      LeadersMeaning(series, part[1..]);
      assert Map(Rowing(), part)[1..] == Map(Rowing(), part[1..]);
    }
  }

  lemma {:induction false} LeadersAppend(all: seq<Standing>, a: seq<Standing>, b: seq<Standing>)
    ensures Leaders(all, a + b) == Leaders(all, a) + Leaders(all, b)
  {
    if a == [] {
      assert a + b == b;
    } else {
      assert (a + b)[1..] == a[1..] + b;
      LeadersAppend(all, a[1..], b);
    }
  }

  lemma {:induction false} LeadersPermutation(all: seq<Standing>, a: seq<Standing>, b: seq<Standing>)
    requires multiset(a) == multiset(b)
    ensures Leaders(all, a) == Leaders(all, b)
  {
    assert |multiset(a)| == |a| && |multiset(b)| == |b|;
    if a != [] {
      var j := RemoveMatching(a, b);
      var before, it, after := b[..j], [b[j]], b[j + 1..];
      LeadersPermutation(all, a[1..], before + after);
      LeadersAppend(all, before, after);
      LeadersAppend(all, before, it + after);
      assert b == before + (it + after) && (it + after)[1..] == after;
    }
  }

  lemma LeadersAgree(series: seq<VerticalSeries>)
    ensures Leaders(SortedRows(series), SortedRows(series)) == LeadingSeries(series, series)
  {
    SortedRowsOrdered(series);
    LeadersPermutation(SortedRows(series), SortedRows(series), Map(Rowing(), series));
    LeadersMeaning(series, series);
  }

  lemma LineMeaning(series: seq<VerticalSeries>, s: VerticalSeries)
    ensures LineAmong(SortedRows(series), RowOf(s)) == StandingOf(series, s)
  {
    LeadersAgree(series);
    RankMeaning(series, s);
  }

  // Every athlete gets one line; ranks count the series strictly better on height, attempts
  // and failures, and TieForFirst marks exactly the rank-1 rows when at least two share it.
  lemma TableMeaning(series: seq<VerticalSeries>)
    ensures multiset(OfficialTable(series)) == multiset(Map(MeaningIn(series), series))
  {
    var rows := SortedRows(series);
    SortedRowsOrdered(series);
    MapPermutation(LineIn(rows), rows, Map(Rowing(), series));
    var lines := Map(LineIn(rows), Map(Rowing(), series));
    forall i | 0 <= i < |series| ensures lines[i] == Map(MeaningIn(series), series)[i] {
      LineMeaning(series, series[i]);
    }
    assert lines == Map(MeaningIn(series), series);
  }

  // --- The countback, written out over the trials ---

  ghost predicate HasBest(s: VerticalSeries, best: int) { best >= 0 && IsBestHeight(s.trials, best) }

  ghost predicate Cleared(s: VerticalSeries) { exists t <- s.trials :: t.kind.Cleared? && t.height >= 0 }

  function AtHeight(height: int): Trial -> bool { (t: Trial) => t.height == height }

  function Failure(): Trial -> bool { (t: Trial) => t.kind.Failed? }

  // A greater height cleared; or the same with fewer attempts at it; or both the same with fewer
  // failures in all.
  ghost predicate Beats(t: VerticalSeries, s: VerticalSeries) {
    exists x, y :: HasBest(t, x) && HasBest(s, y) &&
      var (tries, others) := (Count(AtHeight(x), t.trials), Count(AtHeight(y), s.trials));
      var (misses, failures) := (Count(Failure(), t.trials), Count(Failure(), s.trials));
      x > y || (x == y && tries < others) || (x == y && tries == others && misses < failures)
  }

  ghost function Beating(s: VerticalSeries): VerticalSeries -> bool { t => Beats(t, s) }

  ghost function FirstIn(series: seq<VerticalSeries>): VerticalSeries -> bool {
    s => Cleared(s) && Count(Beating(s), series) == 0
  }

  // What the line of a series is to say.
  ghost predicate Says(series: seq<VerticalSeries>, s: VerticalSeries, line: Standing) {
    && line.athlete == s.athlete
    && (if Cleared(s) then HasBest(s, line.best) && line.attemptsAtBest == Count(AtHeight(line.best), s.trials)
        else line.best == -1 && line.attemptsAtBest == 0)
    && line.failures == Count(Failure(), s.trials)
    && line.eliminated == EliminatedIn(InOrder(s.trials)) && line.retired == HasRetired(s.trials)
    && line.rank == (if Cleared(s) then 1 + Count(Beating(s), series) else 0)
    && (line.tieForFirst <==> line.rank == 1 && Count(FirstIn(series), series) >= 2)
  }

  lemma {:induction false} BestOf(s: VerticalSeries)
    ensures var best := HighestCleared(s.trials);
            && (Cleared(s) <==> best >= 0) && (best >= 0 ==> HasBest(s, best)) && (best < 0 ==> best == -1)
            && forall x :: HasBest(s, x) ==> x == best
  {
    HighestIs(s.trials);
    forall x | HasBest(s, x) ensures x == HighestCleared(s.trials) {
      var t :| t in s.trials && t.kind.Cleared? && t.height == x;
    }
  }

  lemma {:induction false} HighestIs(trials: seq<Trial>)
    ensures var best := HighestCleared(trials);
            && best >= -1 && (forall t <- trials :: t.kind.Cleared? ==> t.height <= best)
            && (best >= 0 ==> exists t <- trials :: t.kind.Cleared? && t.height == best)
  {
    if trials != [] {
      HighestIs(trials[..|trials| - 1]);
      assert trials == trials[..|trials| - 1] + [trials[|trials| - 1]];
    }
  }

  lemma {:induction false} TriesCounted(trials: seq<Trial>, height: int)
    ensures AttemptsAt(trials, height) == Count(AtHeight(height), trials)
    ensures TotalFailures(trials) == Count(Failure(), trials)
  {
    if trials != [] { TriesCounted(trials[1..], height); }
  }

  // For a series with a clearance, whoever is strictly better beats it.
  lemma BetterBeats(t: VerticalSeries, s: VerticalSeries)
    requires Cleared(s)
    ensures Better(t, s) <==> Beats(t, s)
  {
    var x, y := HighestCleared(t.trials), HighestCleared(s.trials);
    BestOf(t);
    BestOf(s);
    TriesCounted(t.trials, x);
    TriesCounted(s.trials, y);
    if Better(t, s) { assert HasBest(t, x) && HasBest(s, y); }
  }

  lemma {:induction false} BetterCounted(all: seq<VerticalSeries>, s: VerticalSeries)
    requires Cleared(s)
    ensures CountBetter(all, s) == Count(Beating(s), all)
  {
    if all != [] {
      BetterCounted(all[1..], s);
      BetterBeats(all[0], s);
    }
  }

  lemma {:induction false} LeadingCounted(all: seq<VerticalSeries>, part: seq<VerticalSeries>)
    ensures LeadingSeries(all, part) == Count(FirstIn(all), part)
  {
    if part != [] {
      LeadingCounted(all, part[1..]);
      BestOf(part[0]);
      if Cleared(part[0]) { BetterCounted(all, part[0]); }
    }
  }

  // Each line says what the trials say.
  lemma CountbackWrittenOut(series: seq<VerticalSeries>, s: VerticalSeries)
    ensures Says(series, s, StandingOf(series, s))
  {
    BestOf(s);
    TriesCounted(s.trials, HighestCleared(s.trials));
    LeadingCounted(series, series);
    if Cleared(s) { BetterCounted(series, s); }
  }

  // Ranked lines come first, by rank, those without a rank last; equal ranks stand by athlete.
  ghost predicate BestFirst(table: seq<Standing>) {
    forall i, j :: 0 <= i < j < |table| ==>
      && (table[i].rank == 0 ==> table[j].rank == 0)
      && (table[j].rank != 0 ==> table[i].rank <= table[j].rank)
      && (table[i].rank == table[j].rank ==> !StringLess(table[j].athlete, table[i].athlete))
  }

  lemma TableOrdered(series: seq<VerticalSeries>)
    ensures BestFirst(OfficialTable(series))
  {
    var rows := SortedRows(series);
    RowOrders();
    SortOrders(Map(Rowing(), series), ListedBefore);
    SortedRowsOrdered(series);
    forall i, j | 0 <= i < j < |rows|
      ensures RankAmong(rows, rows[i]) == 0 ==> RankAmong(rows, rows[j]) == 0
      ensures RankAmong(rows, rows[j]) != 0 ==> RankAmong(rows, rows[i]) <= RankAmong(rows, rows[j])
      ensures RankAmong(rows, rows[i]) == RankAmong(rows, rows[j]) ==> !StringLess(rows[j].athlete, rows[i].athlete)
    {
      RowsOrdered(rows, rows[i], rows[j]);
    }
  }

  lemma RowsOrdered(rows: seq<Standing>, a: Standing, b: Standing)
    requires WeakOrder(Ahead) && !ListedBefore(b, a) && a in rows && b in rows
    ensures RankAmong(rows, a) == 0 ==> RankAmong(rows, b) == 0
    ensures RankAmong(rows, b) != 0 ==> RankAmong(rows, a) <= RankAmong(rows, b)
    ensures RankAmong(rows, a) == RankAmong(rows, b) ==> !StringLess(b.athlete, a.athlete)
  {
    assert !Ahead(b, a);
    PlaceMono(rows, a, b, Ahead);
    if Ahead(a, b) { PlaceStrict(rows, a, b, Ahead); }
  }

  ghost predicate DistinctAthletes(series: seq<VerticalSeries>) {
    forall i, j :: 0 <= i < j < |series| ==> series[i].athlete != series[j].athlete
  }

  lemma TableOrderIndependent(a: seq<VerticalSeries>, b: seq<VerticalSeries>)
    requires multiset(a) == multiset(b) && DistinctAthletes(a)
    ensures OfficialTable(a) == OfficialTable(b)
  {
    MapPermutation(Rowing(), a, b);
    RowOrders();
    assert TieFree(Map(Rowing(), a), ListedBefore) by {
      forall x, y | x in Map(Rowing(), a) && y in Map(Rowing(), a) && x != y
        ensures ListedBefore(x, y) || ListedBefore(y, x)
      {
        StringLessTotal(x.athlete, y.athlete);
      }
    }
    SortCanonical(Map(Rowing(), a), Map(Rowing(), b), ListedBefore);
  }

  // --- Trials may be stored in any order ---

  ghost predicate DistinctTrials(trials: seq<Trial>) {
    forall s, t :: s in trials && t in trials && s != t ==> s.height != t.height || s.number != t.number
  }

  lemma {:induction false} AttemptsAppend(a: seq<Trial>, b: seq<Trial>, height: int)
    ensures AttemptsAt(a + b, height) == AttemptsAt(a, height) + AttemptsAt(b, height)
    ensures TotalFailures(a + b) == TotalFailures(a) + TotalFailures(b)
  {
    if a == [] {
      assert a + b == b;
    } else {
      assert (a + b)[1..] == a[1..] + b;
      AttemptsAppend(a[1..], b, height);
    }
  }

  lemma {:induction false} CountsPermutation(a: seq<Trial>, b: seq<Trial>, height: int)
    requires multiset(a) == multiset(b)
    ensures AttemptsAt(a, height) == AttemptsAt(b, height) && TotalFailures(a) == TotalFailures(b)
  {
    assert |multiset(a)| == |a| && |multiset(b)| == |b|;
    if a != [] {
      var j := RemoveMatching(a, b);
      var before, it, after := b[..j], [b[j]], b[j + 1..];
      CountsPermutation(a[1..], before + after, height);
      AttemptsAppend(before, after, height);
      AttemptsAppend(before, it + after, height);
      assert b == before + (it + after) && (it + after)[1..] == after;
    }
  }

  lemma {:induction false} HighestClearedMeaning(trials: seq<Trial>)
    ensures HighestCleared(trials) >= -1
    ensures forall t <- trials :: t.kind.Cleared? ==> t.height <= HighestCleared(trials) || t.height < 0
    ensures HighestCleared(trials) >= 0 ==> IsBestHeight(trials, HighestCleared(trials))
  {
    if trials != [] {
      var init, last := trials[..|trials| - 1], trials[|trials| - 1];
      assert trials == init + [last];
      HighestClearedMeaning(init);
    }
  }

  // Storing the same distinct trials in another order changes no line of any table.
  lemma StorageOrderIrrelevant(athlete: string, a: seq<Trial>, b: seq<Trial>)
    requires multiset(a) == multiset(b) && DistinctTrials(a)
    ensures RowOf(VerticalSeries(athlete, a)) == RowOf(VerticalSeries(athlete, b))
  {
    assert WeakOrder(Earlier) && TieFree(a, Earlier);
    SortCanonical(a, b, Earlier);
    forall t ensures t in a <==> t in b { assert t in multiset(a) <==> t in multiset(b); }
    HighestClearedMeaning(a);
    HighestClearedMeaning(b);
    CountsPermutation(a, b, HighestCleared(a));
  }
}
