// Combined-event standings: totals, the two equal-totals policies, provisional and final
// rankings (internal/domain/combined.go).
module Combined {
  import opened Basics
  import opened Sorting

  // A missing result has no points.
  datatype Performance = Performance(discipline: string, mark: string, points: Option<int>)

  datatype Standing = Standing(athlete: string, performances: seq<Performance>, total: int, rank: nat,
                               complete: bool, outOfCompetition: bool)

  // An unknown policy falls back to majority-then-highest.
  datatype TieBreak = MajorityThenHighest | TiesStand | OtherPolicy(name: string)

  // --- Totals ---

  function ScoreOf(p: Performance): int { if p.points.Some? then p.points.value else 0 }

  function PointsOf(ps: seq<Performance>): seq<int> { Map(ScoreOf, ps) }

  function Sum(s: seq<int>): int {
    if s == [] then 0 else Sum(s[..|s| - 1]) + s[|s| - 1]
  }

  function Total(ps: seq<Performance>): int { Sum(PointsOf(ps)) }

  predicate AllScored(ps: seq<Performance>) {
    ps != [] && forall p <- ps :: p.points.Some?
  }

  method CombinedTotal(ps: seq<Performance>) returns (total: int, complete: bool)
    ensures total == Total(ps) && complete == AllScored(ps)
  {
    total, complete := 0, |ps| > 0;
    for i := 0 to |ps|
      invariant total == Sum(PointsOf(ps)[..i])
      invariant complete <==> ps != [] && forall k :: 0 <= k < i ==> ps[k].points.Some?
    {
      assert PointsOf(ps)[..i + 1][..i] == PointsOf(ps)[..i];
      if ps[i].points.None? {
        complete := false;
      } else {
        total := total + ps[i].points.value;
      }
    }
    assert PointsOf(ps)[..|ps|] == PointsOf(ps);
  }

  // --- Comparing rows ---

  // In how many of the first n disciplines p scores more than q.
  function Wins(p: seq<int>, q: seq<int>, n: nat): (wins: nat)
    requires n <= |p| && n <= |q|
    ensures wins <= n
  {
    if n == 0 then 0 else Wins(p, q, n - 1) + if p[n - 1] > q[n - 1] then 1 else 0
  }

  function Shared(p: seq<int>, q: seq<int>): nat { if |p| <= |q| then |p| else |q| }

  predicate Greater(x: int, y: int) { x > y }

  function SortedPoints(p: seq<int>): seq<int> { StableSort(p, Greater) }

  // The first difference of two sorted lists decides; a proper prefix ranks behind.
  function CompareSorted(p: seq<int>, q: seq<int>, i: nat): int
    decreases |p| - i
  {
    if i >= |p| then if |q| > |p| then -1 else 0
    else if i >= |q| then 1
    else if p[i] != q[i] then p[i] - q[i]
    else CompareSorted(p, q, i + 1)
  }

  // Positive when p ranks ahead: the majority of disciplines, then the highest points.
  function ComparePoints(p: seq<int>, q: seq<int>): int {
    var m := Shared(p, q);
    var (w, l) := (Wins(p, q, m), Wins(q, p, m));
    if w > |p| / 2 || l > |p| / 2 then w - l
    else CompareSorted(SortedPoints(p), SortedPoints(q), 0)
  }

  function CompareRows(a: Standing, b: Standing): int {
    if a.total != b.total then a.total - b.total
    else ComparePoints(PointsOf(a.performances), PointsOf(b.performances))
  }

  method CompareCombined(a: Standing, b: Standing) returns (c: int)
    ensures c == CompareRows(a, b)
  {
    if a.total != b.total {
      return a.total - b.total;
    }
    var p, q := PointsOf(a.performances), PointsOf(b.performances);
    var winsA, winsB := CountWins(p, q);
    if winsA > |p| / 2 || winsB > |p| / 2 {
      return winsA - winsB;
    }
    var sa, sb := SortedPoints(p), SortedPoints(q);
    for i := 0 to |sa|
      invariant CompareSorted(sa, sb, 0) == CompareSorted(sa, sb, i)
    {
      if i >= |sb| {
        return 1;
      }
      if sa[i] != sb[i] {
        return sa[i] - sb[i];
      }
    }
    return if |sb| > |sa| then -1 else 0;
  }

  method CountWins(p: seq<int>, q: seq<int>) returns (winsP: nat, winsQ: nat)
    ensures winsP == Wins(p, q, Shared(p, q)) && winsQ == Wins(q, p, Shared(p, q))
  {
    winsP, winsQ := 0, 0;
    for i := 0 to Shared(p, q)
      invariant winsP == Wins(p, q, i) && winsQ == Wins(q, p, i)
    {
      if p[i] > q[i] {
        winsP := winsP + 1;
      } else if q[i] > p[i] {
        winsQ := winsQ + 1;
      }
    }
  }

  function Compare(policy: TieBreak, a: Standing, b: Standing): int {
    if policy.TiesStand? then a.total - b.total else CompareRows(a, b)
  }

  predicate Listed(policy: TieBreak, a: Standing, b: Standing) {
    var c := Compare(policy, a, b);
    if c != 0 then c > 0 else StringLess(a.athlete, b.athlete)
  }

  function ListedBefore(policy: TieBreak): (Standing, Standing) -> bool {
    (a: Standing, b: Standing) => Listed(policy, a, b)
  }

  function ByAthlete(): (Standing, Standing) -> bool {
    (a: Standing, b: Standing) => StringLess(a.athlete, b.athlete)
  }

  // --- The rankings ---

  function InCompetition(): Standing -> bool { (r: Standing) => !r.outOfCompetition }

  function OutOfCompetition(): Standing -> bool { (r: Standing) => r.outOfCompetition }

  function Scored(): Standing -> Standing {
    (r: Standing) => r.(total := Total(r.performances), complete := AllScored(r.performances))
  }

  function Unranked(): Standing -> Standing {
    (r: Standing) => r.(total := Total(r.performances), complete := AllScored(r.performances), rank := 0)
  }

  // Equal neighbours share a rank; otherwise a row's rank is its position.
  function RankAt(policy: TieBreak, sorted: seq<Standing>, i: nat): nat
    requires i < |sorted|
  {
    if i > 0 && Compare(policy, sorted[i - 1], sorted[i]) == 0 then RankAt(policy, sorted, i - 1) else i + 1
  }

  function RankedUpTo(policy: TieBreak, sorted: seq<Standing>, n: nat): (r: seq<Standing>)
    requires n <= |sorted|
    ensures |r| == n && forall i :: 0 <= i < n ==> r[i] == sorted[i].(rank := RankAt(policy, sorted, i))
  {
    if n == 0 then []
    else RankedUpTo(policy, sorted, n - 1) + [sorted[n - 1].(rank := RankAt(policy, sorted, n - 1))]
  }

  function SortedEligible(rows: seq<Standing>, policy: TieBreak): seq<Standing> {
    StableSort(Map(Scored(), Filter(InCompetition(), rows)), ListedBefore(policy))
  }

  function RankedRows(rows: seq<Standing>, policy: TieBreak): seq<Standing> {
    RankedUpTo(policy, SortedEligible(rows, policy), |SortedEligible(rows, policy)|)
  }

  // In-competition rows ranked, then the others unranked in athlete order.
  function Provisional(rows: seq<Standing>, policy: TieBreak): seq<Standing> {
    RankedRows(rows, policy) + StableSort(Map(Unranked(), Filter(OutOfCompetition(), rows)), ByAthlete())
  }

  method RankCombinedWithTieBreak(rows: seq<Standing>, policy: TieBreak) returns (out: seq<Standing>)
    ensures out == Provisional(rows, policy)
  {
    var eligible, ooc := Split(rows);
    eligible := StableSort(eligible, ListedBefore(policy));
    ooc := StableSort(ooc, ByAthlete());
    var ranked := AssignRanks(eligible, policy);
    return ranked + ooc;
  }

  // What a loop that filters and rewrites rows has gathered after one more row.
  lemma GatherNext(f: Standing -> Standing, p: Standing -> bool, rows: seq<Standing>, i: nat)
    requires i < |rows|
    ensures Map(f, Filter(p, rows[..i + 1])) == Map(f, Filter(p, rows[..i])) + (if p(rows[i]) then [f(rows[i])] else [])
  {
    FilterNext(p, rows, i);
    MapAppend(f, Filter(p, rows[..i]), if p(rows[i]) then [rows[i]] else []);
  }

  method Split(rows: seq<Standing>) returns (eligible: seq<Standing>, ooc: seq<Standing>)
    ensures eligible == Map(Scored(), Filter(InCompetition(), rows))
    ensures ooc == Map(Unranked(), Filter(OutOfCompetition(), rows))
  {
    eligible, ooc := [], [];
    for i := 0 to |rows|
      invariant eligible == Map(Scored(), Filter(InCompetition(), rows[..i]))
      invariant ooc == Map(Unranked(), Filter(OutOfCompetition(), rows[..i]))
    {
      GatherNext(Scored(), InCompetition(), rows, i);
      GatherNext(Unranked(), OutOfCompetition(), rows, i);
      var r := rows[i];
      var total, complete := CombinedTotal(r.performances);
      if r.outOfCompetition {
        ooc := ooc + [r.(total := total, complete := complete, rank := 0)];
      } else {
        eligible := eligible + [r.(total := total, complete := complete)];
      }
    }
    assert rows[..|rows|] == rows;
  }

  method AssignRanks(sorted: seq<Standing>, policy: TieBreak) returns (out: seq<Standing>)
    ensures out == RankedUpTo(policy, sorted, |sorted|)
  {
    out := [];
    for i := 0 to |sorted|
      invariant out == RankedUpTo(policy, sorted, i)
    {
      var tied := false;
      if i > 0 {
        var c := if policy.TiesStand? then sorted[i - 1].total - sorted[i].total else 0;
        if !policy.TiesStand? {
          c := CompareCombined(sorted[i - 1], sorted[i]);
        }
        tied := c == 0;
      }
      out := out + [sorted[i].(rank := if tied then out[i - 1].rank else i + 1)];
    }
  }

  predicate Rankable(r: Standing) { !r.outOfCompetition && AllScored(r.performances) }

  predicate NotRankable(r: Standing) { !Rankable(r) }

  // Complete in-competition rows ranked among themselves, then all the others unranked.
  function Final(rows: seq<Standing>, policy: TieBreak): seq<Standing> {
    Provisional(Filter(Rankable, rows), policy)
    + StableSort(Map(Unranked(), Filter(NotRankable, rows)), ByAthlete())
  }

  method FinalRankCombined(rows: seq<Standing>, policy: TieBreak) returns (out: seq<Standing>)
    ensures out == Final(rows, policy)
  {
    var rankable, unranked: seq<Standing> := [], [];
    for i := 0 to |rows|
      invariant rankable == Filter(Rankable, rows[..i])
      invariant unranked == Map(Unranked(), Filter(NotRankable, rows[..i]))
    {
      FilterNext(Rankable, rows, i);
      GatherNext(Unranked(), NotRankable, rows, i);
      var r := rows[i];
      var total, complete := CombinedTotal(r.performances);
      if !r.outOfCompetition && complete {
        rankable := rankable + [r];
      } else {
        unranked := unranked + [r.(total := total, complete := complete, rank := 0)];
      }
    }
    assert rows[..|rows|] == rows;
    var ranked := RankCombinedWithTieBreak(rankable, policy);
    unranked := StableSort(unranked, ByAthlete());
    return ranked + unranked;
  }

  lemma MapAppend<A, B>(f: A -> B, a: seq<A>, b: seq<A>)
    ensures Map(f, a + b) == Map(f, a) + Map(f, b)
  {}

  // --- Nothing is lost ---

  // What a ranking never touches in a row.
  function Identity(): Standing -> Standing {
    (r: Standing) => r.(total := 0, complete := false, rank := 0)
  }

  lemma {:induction false} FilterPartition(p: Standing -> bool, q: Standing -> bool, rows: seq<Standing>)
    requires forall r <- rows :: q(r) == !p(r)
    ensures multiset(Filter(p, rows)) + multiset(Filter(q, rows)) == multiset(rows)
  {
    if rows != [] {
      assert rows == [rows[0]] + rows[1..];
      FilterPartition(p, q, rows[1..]);
    }
  }

  lemma IdentityKept(f: Standing -> Standing, rows: seq<Standing>, less: (Standing, Standing) -> bool)
    requires forall r <- rows :: Identity()(f(r)) == Identity()(r)
    ensures multiset(Map(Identity(), StableSort(Map(f, rows), less))) == multiset(Map(Identity(), rows))
  {
    SortPermutes(Map(f, rows), less);
    MapPermutation(Identity(), StableSort(Map(f, rows), less), Map(f, rows));
    forall i | 0 <= i < |rows| ensures Map(Identity(), Map(f, rows))[i] == Map(Identity(), rows)[i] {
      assert rows[i] in rows;
    }
    assert Map(Identity(), Map(f, rows)) == Map(Identity(), rows);
  }

  lemma {:induction false} MapMultiset(rows: seq<Standing>, a: seq<Standing>, b: seq<Standing>)
    requires multiset(rows) == multiset(a) + multiset(b)
    ensures multiset(Map(Identity(), rows)) == multiset(Map(Identity(), a)) + multiset(Map(Identity(), b))
  {
    assert multiset(a + b) == multiset(rows);
    MapPermutation(Identity(), rows, a + b);
    MapAppend(Identity(), a, b);
  }

  lemma RankingKeepsIdentity(policy: TieBreak, sorted: seq<Standing>)
    ensures Map(Identity(), RankedUpTo(policy, sorted, |sorted|)) == Map(Identity(), sorted)
  {
  }

  // The provisional ranking holds every row exactly once, its performances untouched.
  lemma ProvisionalConservesRows(rows: seq<Standing>, policy: TieBreak)
    ensures multiset(Map(Identity(), Provisional(rows, policy))) == multiset(Map(Identity(), rows))
  {
    var eligible, ooc := Filter(InCompetition(), rows), Filter(OutOfCompetition(), rows);
    var sorted := SortedEligible(rows, policy);
    FilterPartition(InCompetition(), OutOfCompetition(), rows);
    MapMultiset(rows, eligible, ooc);
    IdentityKept(Scored(), eligible, ListedBefore(policy));
    IdentityKept(Unranked(), ooc, ByAthlete());
    RankingKeepsIdentity(policy, sorted);
    MapAppend(Identity(), RankedRows(rows, policy), StableSort(Map(Unranked(), ooc), ByAthlete()));
  }

  // So does the final one.
  lemma FinalConservesRows(rows: seq<Standing>, policy: TieBreak)
    ensures multiset(Map(Identity(), Final(rows, policy))) == multiset(Map(Identity(), rows))
  {
    var rankable, others := Filter(Rankable, rows), Filter(NotRankable, rows);
    FilterPartition(Rankable, NotRankable, rows);
    MapMultiset(rows, rankable, others);
    ProvisionalConservesRows(rankable, policy);
    IdentityKept(Unranked(), others, ByAthlete());
    MapAppend(Identity(), Provisional(rankable, policy), StableSort(Map(Unranked(), others), ByAthlete()));
  }

  // With every row complete and in competition the final table is the provisional one.
  lemma FinalIsProvisionalWhenComplete(rows: seq<Standing>, policy: TieBreak)
    requires forall r <- rows :: Rankable(r)
    ensures Final(rows, policy) == Provisional(rows, policy)
  {
    KeepsAll(rows);
  }

  lemma {:induction false} KeepsAll(rows: seq<Standing>)
    requires forall r <- rows :: Rankable(r)
    ensures Filter(Rankable, rows) == rows && Filter(NotRankable, rows) == []
  {
    if rows != [] { KeepsAll(rows[1..]); }
  }

  // Otherwise it ranks exactly the complete in-competition rows; every other row follows
  // with rank 0.
  lemma FinalRanksOnlyTheComplete(rows: seq<Standing>, policy: TieBreak, r: Standing)
    requires r in Final(rows, policy)
    ensures r.rank > 0 <==> Rankable(r)
  {
    var rankable, others := Filter(Rankable, rows), Filter(NotRankable, rows);
    var sorted := SortedEligible(rankable, policy);
    RankableOnly(rankable);
    if r in RankedRows(rankable, policy) {
      var i :| 0 <= i < |sorted| && RankedRows(rankable, policy)[i] == r;
      RankPositive(policy, sorted, i);
      SortMembers(Map(Scored(), Filter(InCompetition(), rankable)), ListedBefore(policy));
      assert sorted[i] in Map(Scored(), rankable);
      MappedFrom(Scored(), rankable, sorted[i]);
    } else {
      SortMembers(Map(Unranked(), others), ByAthlete());
      SortMembers(Map(Unranked(), Filter(OutOfCompetition(), rankable)), ByAthlete());
      assert r in Map(Unranked(), others);
      MappedFrom(Unranked(), others, r);
    }
  }

  lemma MappedFrom(f: Standing -> Standing, rows: seq<Standing>, y: Standing)
    requires y in Map(f, rows)
    ensures exists r :: r in rows && y == f(r)
  {
    var i :| 0 <= i < |rows| && Map(f, rows)[i] == y;
    assert rows[i] in rows;
  }

  lemma {:induction false} RankableOnly(rows: seq<Standing>)
    requires forall r <- rows :: Rankable(r)
    ensures Filter(InCompetition(), rows) == rows && Filter(OutOfCompetition(), rows) == []
  {
    if rows != [] {
      assert Rankable(rows[0]);
      RankableOnly(rows[1..]);
    }
  }

  lemma {:induction false} RankPositive(policy: TieBreak, sorted: seq<Standing>, i: nat)
    requires i < |sorted|
    ensures 0 < RankAt(policy, sorted, i) <= i + 1
  {
    if i > 0 && Compare(policy, sorted[i - 1], sorted[i]) == 0 { RankPositive(policy, sorted, i - 1); }
  }

  // --- Ties stand: the place of a total ---

  predicate OutScores(a: Standing, b: Standing) { Total(a.performances) > Total(b.performances) }

  predicate LargerTotal(a: Standing, b: Standing) { a.total > b.total }

  lemma TotalsOrder()
    ensures WeakOrder(LargerTotal) && WeakOrder(ListedBefore(TiesStand))
  {
    var less := ListedBefore(TiesStand);
    forall a, b | less(a, b) ensures !less(b, a) { StringLessAsymmetric(a.athlete, b.athlete); }
    forall a, b, c | !less(a, b) && !less(b, c) ensures !less(a, c) {
      assert !Listed(TiesStand, a, b) && !Listed(TiesStand, b, c);
      if a.total == b.total == c.total { StringLessNegTransitive(a.athlete, b.athlete, c.athlete); }
    }
  }

  lemma SortedByTotal(rows: seq<Standing>)
    ensures Ordered(SortedEligible(rows, TiesStand), LargerTotal)
  {
    var sorted := SortedEligible(rows, TiesStand);
    TotalsOrder();
    SortOrders(Map(Scored(), Filter(InCompetition(), rows)), ListedBefore(TiesStand));
    forall i, j | 0 <= i < j < |sorted| ensures !LargerTotal(sorted[j], sorted[i]) {
      assert !ListedBefore(TiesStand)(sorted[j], sorted[i]);
    }
  }

  lemma {:induction false} RankIsPlace(sorted: seq<Standing>, i: nat)
    requires Ordered(sorted, LargerTotal) && i < |sorted|
    ensures RankAt(TiesStand, sorted, i) == Place(sorted, sorted[i], LargerTotal)
  {
    TotalsOrder();
    PlaceStep(sorted, i, LargerTotal);
    if i > 0 {
      assert !LargerTotal(sorted[i], sorted[i - 1]);
      RankIsPlace(sorted, i - 1);
    }
  }

  lemma {:induction false} CountScored(rows: seq<Standing>, r: Standing)
    ensures CountAhead(Map(Scored(), rows), Scored()(r), LargerTotal) == CountAhead(rows, r, OutScores)
  {
    if rows != [] {
      CountScored(rows[1..], r);
      assert Map(Scored(), rows)[1..] == Map(Scored(), rows[1..]);
    }
  }

  // The line World Athletics rules give an in-competition row.
  function LineFor(rows: seq<Standing>): Standing -> Standing {
    (r: Standing) => Scored()(r).(rank := Place(Filter(InCompetition(), rows), r, OutScores))
  }

  function PlacedIn(sorted: seq<Standing>): Standing -> Standing {
    (r: Standing) => r.(rank := Place(sorted, r, LargerTotal))
  }

  lemma RankedIsPlaced(sorted: seq<Standing>)
    requires Ordered(sorted, LargerTotal)
    ensures RankedUpTo(TiesStand, sorted, |sorted|) == Map(PlacedIn(sorted), sorted)
  {
    var ranked := RankedUpTo(TiesStand, sorted, |sorted|);
    forall i | 0 <= i < |sorted| ensures ranked[i] == PlacedIn(sorted)(sorted[i]) { RankIsPlace(sorted, i); }
    assert ranked == Map(PlacedIn(sorted), sorted);
  }

  lemma PlacedIsLine(rows: seq<Standing>, sorted: seq<Standing>)
    requires multiset(sorted) == multiset(Map(Scored(), Filter(InCompetition(), rows)))
    ensures Map(PlacedIn(sorted), Map(Scored(), Filter(InCompetition(), rows)))
         == Map(LineFor(rows), Filter(InCompetition(), rows))
  {
    var eligible := Filter(InCompetition(), rows);
    forall i | 0 <= i < |eligible|
      ensures Map(PlacedIn(sorted), Map(Scored(), eligible))[i] == Map(LineFor(rows), eligible)[i]
    {
      PlaceOf(eligible, sorted, eligible[i]);
    }
  }

  lemma PlaceOf(eligible: seq<Standing>, sorted: seq<Standing>, r: Standing)
    requires multiset(sorted) == multiset(Map(Scored(), eligible))
    ensures Place(sorted, Scored()(r), LargerTotal) == Place(eligible, r, OutScores)
  {
    PlacePermutation(sorted, Map(Scored(), eligible), Scored()(r), LargerTotal);
    CountScored(eligible, r);
  }

  // Under ties-stand every in-competition row ranks 1 plus the number of in-competition rows
  // with a larger total, whatever order the rows came in.
  lemma TiesStandMeaning(rows: seq<Standing>)
    ensures multiset(RankedRows(rows, TiesStand)) == multiset(Map(LineFor(rows), Filter(InCompetition(), rows)))
  {
    var scored := Map(Scored(), Filter(InCompetition(), rows));
    var sorted := SortedEligible(rows, TiesStand);
    SortedByTotal(rows);
    SortPermutes(scored, ListedBefore(TiesStand));
    RankedIsPlaced(sorted);
    MapPermutation(PlacedIn(sorted), sorted, scored);
    PlacedIsLine(rows, sorted);
  }

  // --- The majority policy ---

  lemma {:induction false} SumPermutation(p: seq<int>, q: seq<int>)
    requires multiset(p) == multiset(q)
    ensures Sum(p) == Sum(q)
  {
    assert |multiset(p)| == |p| && |multiset(q)| == |q|;
    if p != [] {
      var x, n := p[|p| - 1], |p| - 1;
      assert p == p[..n] + [x];
      assert x in multiset(q);
      var j :| 0 <= j < |q| && q[j] == x;
      assert q == q[..j] + [x] + q[j + 1..];
      assert multiset(p[..n]) == multiset(p) - multiset{x};
      assert multiset(q[..j] + q[j + 1..]) == multiset(q) - multiset{x};
      SumPermutation(p[..n], q[..j] + q[j + 1..]);
      SumWithout(q[..j], x, q[j + 1..]);
    }
  }

  lemma {:induction false} SumWithout(a: seq<int>, x: int, b: seq<int>)
    ensures Sum(a + [x] + b) == Sum(a + b) + x
  {
    if b == [] {
      assert a + [x] + b == a + [x] && a + b == a;
      assert (a + [x])[..|a|] == a;
    } else {
      var n := |b| - 1;
      SumWithout(a, x, b[..n]);
      assert (a + [x] + b)[..|a| + 1 + n] == a + [x] + b[..n];
      assert (a + b)[..|a| + n] == a + b[..n];
    }
  }

  lemma {:induction false} CompareSortedAntisymmetric(p: seq<int>, q: seq<int>, i: nat)
    requires |p| == |q|
    ensures CompareSorted(p, q, i) == -CompareSorted(q, p, i)
    ensures CompareSorted(p, q, i) == 0 <==> forall k :: i <= k < |p| ==> p[k] == q[k]
    decreases |p| - i
  {
    if i < |p| && p[i] == q[i] { CompareSortedAntisymmetric(p, q, i + 1); }
  }

  lemma {:induction false} WinsBounded(p: seq<int>, q: seq<int>, n: nat)
    requires n <= |p| && n <= |q|
    ensures Wins(p, q, n) + Wins(q, p, n) <= n
  {
    if n > 0 { WinsBounded(p, q, n - 1); }
  }

  lemma SortedPointsSize(p: seq<int>)
    ensures |SortedPoints(p)| == |p| && multiset(SortedPoints(p)) == multiset(p)
  {
    SortPermutes(p, Greater);
  }

  // Rows with the same number of disciplines compare the same way from both sides.
  lemma ComparisonAntisymmetric(a: Standing, b: Standing)
    requires |a.performances| == |b.performances|
    ensures CompareRows(a, b) == -CompareRows(b, a)
  {
    var p, q := PointsOf(a.performances), PointsOf(b.performances);
    SortedPointsSize(p);
    SortedPointsSize(q);
    CompareSortedAntisymmetric(SortedPoints(p), SortedPoints(q), 0);
  }

  // p scores more than q in more than half of the disciplines.
  predicate Majority(p: seq<int>, q: seq<int>)
    requires |p| == |q|
  {
    Wins(p, q, |p|) > |p| / 2
  }

  lemma PointsTieExactly(p: seq<int>, q: seq<int>)
    requires |p| == |q|
    ensures ComparePoints(p, q) == 0 <==> multiset(p) == multiset(q) && !Majority(p, q) && !Majority(q, p)
  {
    WinsBounded(p, q, |p|);
    SortedPointsSize(p);
    SortedPointsSize(q);
    var sp, sq := SortedPoints(p), SortedPoints(q);
    CompareSortedAntisymmetric(sp, sq, 0);
    assert CompareSorted(sp, sq, 0) == 0 <==> sp == sq;
    if multiset(p) == multiset(q) {
      GreaterOrders();
      SortCanonical(p, q, Greater);
    }
  }

  // An official tie is exactly: the same points in some order, and neither row ahead in the
  // majority of disciplines. The documentation calls identical points a tie outright.
  lemma TieExactly(a: Standing, b: Standing)
    requires |a.performances| == |b.performances|
    requires a.total == Total(a.performances) && b.total == Total(b.performances)
    ensures var p, q := PointsOf(a.performances), PointsOf(b.performances);
            CompareRows(a, b) == 0 <==> multiset(p) == multiset(q) && !Majority(p, q) && !Majority(q, p)
  {
    var p, q := PointsOf(a.performances), PointsOf(b.performances);
    PointsTieExactly(p, q);
    if multiset(p) == multiset(q) { SumPermutation(p, q); }
  }

  lemma GreaterOrders()
    ensures WeakOrder(Greater)
  {}

  // --- The majority rule, written out ---

  // The disciplines in which p has more points.
  ghost function Won(p: seq<int>, q: seq<int>, n: nat): set<nat>
    requires n <= |p| && n <= |q|
  {
    set i: nat | i < n && p[i] > q[i]
  }

  lemma {:induction false} WinsAreWon(p: seq<int>, q: seq<int>, n: nat)
    requires n <= |p| && n <= |q|
    ensures Wins(p, q, n) == |Won(p, q, n)|
  {
    if n > 0 {
      WinsAreWon(p, q, n - 1);
      var last: nat := n - 1;
      if p[last] > q[last] {
        assert Won(p, q, n) == Won(p, q, last) + {last};
      } else {
        assert Won(p, q, n) == Won(p, q, last);
      }
    } else {
      assert Won(p, q, 0) == {};
    }
  }

  // The same points, highest first.
  ghost predicate HighestFirst(p: seq<int>, sorted: seq<int>) {
    multiset(sorted) == multiset(p) && forall i, j :: 0 <= i < j < |sorted| ==> sorted[i] >= sorted[j]
  }

  // Where the two lists, highest first, first differ, p has more.
  ghost predicate HigherPoints(p: seq<int>, q: seq<int>) {
    exists a, b, k: nat :: HighestFirst(p, a) && HighestFirst(q, b) && HigherAt(a, b, k)
  }

  ghost predicate HigherAt(a: seq<int>, b: seq<int>, k: nat) { k < |a| && k < |b| && a[..k] == b[..k] && a[k] > b[k] }

  // More points than the other in more than half of the disciplines.
  ghost predicate InMajority(p: seq<int>, q: seq<int>)
    requires |p| == |q|
  {
    2 * |Won(p, q, |p|)| > |p|
  }

  lemma SortedHighestFirst(p: seq<int>)
    ensures HighestFirst(p, SortedPoints(p)) && forall a: seq<int> :: HighestFirst(p, a) ==> a == SortedPoints(p)
  {
    var sorted := SortedPoints(p);
    GreaterOrders();
    SortPermutes(p, Greater);
    SortOrders(p, Greater);
    forall i, j | 0 <= i < j < |sorted| ensures sorted[i] >= sorted[j] { assert !Greater(sorted[j], sorted[i]); }
    forall a: seq<int> | HighestFirst(p, a) ensures a == sorted { OrderedUnique(a, sorted, Greater); }
  }

  lemma SamePrefix(a: seq<int>, b: seq<int>, n: nat)
    requires n <= |a| && n <= |b| && a[..n] == b[..n]
    ensures forall i :: 0 <= i < n ==> a[i] == b[i]
  {
    forall i | 0 <= i < n ensures a[i] == b[i] { assert a[..n][i] == b[..n][i]; }
  }

  lemma {:induction false} SortedMeans(a: seq<int>, b: seq<int>, i: nat)
    requires |a| == |b| && i <= |a| && a[..i] == b[..i]
    ensures CompareSorted(a, b, i) > 0 <==> exists k: nat :: HigherAt(a, b, k)
    decreases |a| - i
  {
    if i < |a| {
      if a[i] == b[i] {
        assert a[..i + 1] == a[..i] + [a[i]] && b[..i + 1] == b[..i] + [b[i]];
        SortedMeans(a, b, i + 1);
      } else {
        if a[i] > b[i] { assert HigherAt(a, b, i); }
        forall k: nat | HigherAt(a, b, k) ensures k == i {
          SamePrefix(a, b, i);
          SamePrefix(a, b, k);
        }
      }
    } else {
      assert a == b;
    }
  }

  // A row is ahead of another over as many disciplines on a larger total; on the same total with the
  // majority of disciplines; and if neither has that, on the higher points where they first differ.
  lemma MajorityRule(a: Standing, b: Standing)
    requires |a.performances| == |b.performances|
    ensures var p, q := PointsOf(a.performances), PointsOf(b.performances);
            CompareRows(a, b) > 0 <==>
              || a.total > b.total
              || (a.total == b.total && InMajority(p, q))
              || (a.total == b.total && !InMajority(p, q) && !InMajority(q, p) && HigherPoints(p, q))
  {
    var p, q := PointsOf(a.performances), PointsOf(b.performances);
    WinsAreWon(p, q, |p|);
    WinsAreWon(q, p, |p|);
    WinsBounded(p, q, |p|);
    SortedPointsSize(p);
    SortedPointsSize(q);
    SortedHighestFirst(p);
    SortedHighestFirst(q);
    assert SortedPoints(p)[..0] == SortedPoints(q)[..0];
    SortedMeans(SortedPoints(p), SortedPoints(q), 0);
  }

  // Every total is the sum of the row's points, and a row is complete when all its disciplines have
  // points and there are some.
  lemma {:induction false} TotalIsSum(ps: seq<Performance>)
    ensures Total(ps) == if ps == [] then 0
                         else Total(ps[..|ps| - 1]) + if ps[|ps| - 1].points.Some? then ps[|ps| - 1].points.value else 0
  {
    if ps != [] {
      var n := |ps| - 1;
      assert PointsOf(ps)[..n] == PointsOf(ps[..n]);
    }
  }

  // Where ties stand, totals never rise down the ranking, and equal totals stand by athlete.
  lemma TotalsFall(rows: seq<Standing>, i: nat, j: nat)
    requires i < j < |RankedRows(rows, TiesStand)|
    ensures var a, b := RankedRows(rows, TiesStand)[i], RankedRows(rows, TiesStand)[j];
            a.total >= b.total && (a.total == b.total ==> !StringLess(b.athlete, a.athlete))
  {
    TiesStandListing();
    SortOrders(Map(Scored(), Filter(InCompetition(), rows)), ListedBefore(TiesStand));
    var sorted := SortedEligible(rows, TiesStand);
    assert !ListedBefore(TiesStand)(sorted[j], sorted[i]);
  }

  lemma TiesStandListing()
    ensures WeakOrder(ListedBefore(TiesStand))
  {
    var less := ListedBefore(TiesStand);
    forall a, b | less(a, b) ensures !less(b, a) { StringLessAsymmetric(a.athlete, b.athlete); }
    forall a, b, c | !less(a, b) && !less(b, c) ensures !less(a, c) {
      if a.total == b.total == c.total { StringLessNegTransitive(a.athlete, b.athlete, c.athlete); }
    }
  }

  // Rows without a rank stand by athlete.
  lemma UnrankedByAthlete(rows: seq<Standing>, i: nat, j: nat)
    requires i < j < |StableSort(rows, ByAthlete())|
    ensures var s := StableSort(rows, ByAthlete()); !StringLess(s[j].athlete, s[i].athlete)
  {
    var less := ByAthlete();
    forall a, b | less(a, b) ensures !less(b, a) { StringLessAsymmetric(a.athlete, b.athlete); }
    forall a, b, c | !less(a, b) && !less(b, c) ensures !less(a, c) {
      StringLessNegTransitive(a.athlete, b.athlete, c.athlete);
    }
    SortOrders(rows, less);
    assert !less(StableSort(rows, less)[j], StableSort(rows, less)[i]);
  }

  ghost predicate SameLength(rows: seq<Standing>) {
    forall a, b :: a in rows && b in rows ==> |a.performances| == |b.performances|
  }

  // Neighbours of the majority ranking stand in comparison order, and share a rank exactly
  // when they tie.
  lemma MajorityNeighbours(rows: seq<Standing>, i: nat)
    requires SameLength(rows) && i + 1 < |RankedRows(rows, MajorityThenHighest)|
    ensures var a, b := RankedRows(rows, MajorityThenHighest)[i], RankedRows(rows, MajorityThenHighest)[i + 1];
            && CompareRows(a, b) >= 0
            && (CompareRows(a, b) == 0 <==> a.rank == b.rank)
            && (CompareRows(a, b) > 0 ==> b.rank == i + 2)
  {
    var sorted := SortedEligible(rows, MajorityThenHighest);
    NeighboursInOrder(rows, i);
    RankPositive(MajorityThenHighest, sorted, i);
  }

  lemma ScoredSameLength(rows: seq<Standing>, a: Standing, b: Standing)
    requires SameLength(rows)
    requires a in Map(Scored(), Filter(InCompetition(), rows)) && b in Map(Scored(), Filter(InCompetition(), rows))
    ensures |a.performances| == |b.performances|
  {
    MappedFrom(Scored(), Filter(InCompetition(), rows), a);
    MappedFrom(Scored(), Filter(InCompetition(), rows), b);
  }

  lemma NeighboursInOrder(rows: seq<Standing>, i: nat)
    requires SameLength(rows) && i + 1 < |SortedEligible(rows, MajorityThenHighest)|
    ensures var sorted := SortedEligible(rows, MajorityThenHighest);
            CompareRows(sorted[i], sorted[i + 1]) >= 0
  {
    var eligible := Map(Scored(), Filter(InCompetition(), rows));
    var sorted := SortedEligible(rows, MajorityThenHighest);
    ListedAsymmetric(rows);
    SortAdjacent(eligible, ListedBefore(MajorityThenHighest));
    SortMembers(eligible, ListedBefore(MajorityThenHighest));
    ScoredSameLength(rows, sorted[i], sorted[i + 1]);
    ComparisonAntisymmetric(sorted[i], sorted[i + 1]);
    assert !ListedBefore(MajorityThenHighest)(sorted[i + 1], sorted[i]);
  }

  lemma ListedAsymmetric(rows: seq<Standing>)
    requires SameLength(rows)
    ensures AsymmetricOn(Map(Scored(), Filter(InCompetition(), rows)), ListedBefore(MajorityThenHighest))
  {
    var eligible := Map(Scored(), Filter(InCompetition(), rows));
    forall a, b | a in eligible && b in eligible && Listed(MajorityThenHighest, a, b)
      ensures !Listed(MajorityThenHighest, b, a)
    {
      ScoredSameLength(rows, a, b);
      ComparisonAntisymmetric(a, b);
      StringLessAsymmetric(a.athlete, b.athlete);
    }
  }

  ghost predicate DistinctTotals(rows: seq<Standing>) {
    forall i, j :: 0 <= i < j < |rows| ==> Total(rows[i].performances) != Total(rows[j].performances)
  }

  lemma TotalsApart(rows: seq<Standing>)
    requires DistinctTotals(rows)
    ensures forall a, b :: a in Map(Scored(), rows) && b in Map(Scored(), rows) && a != b ==> a.total != b.total
  {
    var scored := Map(Scored(), rows);
    forall a, b | a in scored && b in scored && a != b ensures a.total != b.total {
      var i :| 0 <= i < |scored| && scored[i] == a;
      var j :| 0 <= j < |scored| && scored[j] == b;
      assert i < j || j < i;
    }
  }

  // The policy only matters among equal totals: where the totals of the in-competition rows
  // are all different, both rank alike.
  lemma PoliciesAgreeOnDistinctTotals(rows: seq<Standing>)
    requires DistinctTotals(Filter(InCompetition(), rows))
    ensures RankedRows(rows, MajorityThenHighest) == RankedRows(rows, TiesStand)
  {
    var eligible := Map(Scored(), Filter(InCompetition(), rows));
    TotalsApart(Filter(InCompetition(), rows));
    forall a | a in eligible ensures Listed(MajorityThenHighest, a, a) == Listed(TiesStand, a, a) {
      ComparisonAntisymmetric(a, a);
    }
    SortAgrees(eligible, ListedBefore(MajorityThenHighest), ListedBefore(TiesStand));
    var sorted := SortedEligible(rows, TiesStand);
    SortMembers(eligible, ListedBefore(TiesStand));
    forall i | 0 <= i < |sorted| ensures RankAt(MajorityThenHighest, sorted, i) == RankAt(TiesStand, sorted, i) {
      RanksAgree(eligible, sorted, i);
    }
  }

  lemma {:induction false} RanksAgree(eligible: seq<Standing>, sorted: seq<Standing>, i: nat)
    requires i < |sorted| && forall r <- sorted :: r in eligible
    requires forall a, b :: a in eligible && b in eligible && a != b ==> a.total != b.total
    ensures RankAt(MajorityThenHighest, sorted, i) == RankAt(TiesStand, sorted, i)
  {
    if i > 0 {
      RanksAgree(eligible, sorted, i - 1);
      if sorted[i - 1] == sorted[i] { ComparisonAntisymmetric(sorted[i], sorted[i]); }
    }
  }

  // --- The majority policy is not an order ---

  function Row(athlete: string, x: int, y: int, z: int): Standing {
    Standing(athlete, [Performance("60", "", Some(x)), Performance("weit", "", Some(y)),
                       Performance("ball", "", Some(z))], 6, 0, true, false)
  }

  lemma ThreeWins(p: seq<int>, q: seq<int>)
    requires |p| == 3 && |q| == 3
    ensures Wins(p, q, 3) == (if p[0] > q[0] then 1 else 0) + (if p[1] > q[1] then 1 else 0) + (if p[2] > q[2] then 1 else 0)
  {
    assert Wins(p, q, 1) == if p[0] > q[0] then 1 else 0;
    assert Wins(p, q, 2) == Wins(p, q, 1) + if p[1] > q[1] then 1 else 0;
  }

  lemma PointsOfRow(athlete: string, x: int, y: int, z: int)
    ensures PointsOf(Row(athlete, x, y, z).performances) == [x, y, z]
  {}

  // Three rows with equal totals can each be ahead of the next, all the way round.
  lemma MajorityCycle()
    ensures CompareRows(Row("A", 3, 2, 1), Row("C", 2, 1, 3)) > 0
    ensures CompareRows(Row("C", 2, 1, 3), Row("B", 1, 3, 2)) > 0
    ensures CompareRows(Row("B", 1, 3, 2), Row("A", 3, 2, 1)) > 0
  {
    PointsOfRow("A", 3, 2, 1);
    PointsOfRow("B", 1, 3, 2);
    PointsOfRow("C", 2, 1, 3);
    var a, b, c := [3, 2, 1], [1, 3, 2], [2, 1, 3];
    ThreeWins(a, c);
    ThreeWins(c, a);
    ThreeWins(c, b);
    ThreeWins(b, c);
    ThreeWins(b, a);
    ThreeWins(a, b);
  }

  lemma ScoredRow(athlete: string, x: int, y: int, z: int)
    requires x + y + z == 6
    ensures Scored()(Row(athlete, x, y, z)) == Row(athlete, x, y, z)
  {
    var ps := Row(athlete, x, y, z).performances;
    PointsOfRow(athlete, x, y, z);
    assert [x, y, z][..2] == [x, y] && [x, y][..1] == [x] && [x][..0] == [];
    assert Sum([x]) == Sum([]) + x && Sum([x, y]) == Sum([x]) + y && Sum([x, y, z]) == Sum([x, y]) + z;
    assert ps[0].points.Some? && ps[1].points.Some? && ps[2].points.Some?;
  }

  lemma AllCompete(a: Standing, b: Standing, c: Standing)
    requires !a.outOfCompetition && !b.outOfCompetition && !c.outOfCompetition
    requires Scored()(a) == a && Scored()(b) == b && Scored()(c) == c
    ensures SortedEligible([a, b, c], MajorityThenHighest) == StableSort([a, b, c], ListedBefore(MajorityThenHighest))
  {
    assert [a, b, c][1..] == [b, c] && [b, c][1..] == [c] && [c][1..] == [];
    assert Filter(InCompetition(), [c]) == [c];
    assert Filter(InCompetition(), [b, c]) == [b] + Filter(InCompetition(), [c]);
    assert Filter(InCompetition(), [a, b, c]) == [a] + Filter(InCompetition(), [b, c]);
    assert Map(Scored(), [a, b, c]) == [a, b, c];
  }

  // So the winner can depend on the order rows are supplied in.
  lemma MajorityDependsOnInputOrder()
    ensures var a, b, c := Row("A", 3, 2, 1), Row("B", 1, 3, 2), Row("C", 2, 1, 3);
            var one, other := RankedRows([a, b, c], MajorityThenHighest), RankedRows([c, a, b], MajorityThenHighest);
            |one| == |other| == 3 && one[0].athlete == "B" && other[0].athlete == "A"
  {
    var a, b, c := Row("A", 3, 2, 1), Row("B", 1, 3, 2), Row("C", 2, 1, 3);
    var less := ListedBefore(MajorityThenHighest);
    MajorityCycle();
    ComparisonAntisymmetric(a, b);
    ComparisonAntisymmetric(b, c);
    ComparisonAntisymmetric(c, a);
    assert less(a, c) && less(c, b) && less(b, a) && !less(c, a) && !less(b, c) && !less(a, b);
    SortThree(a, b, c, less);
    SortThree(c, a, b, less);
    ScoredRow("A", 3, 2, 1);
    ScoredRow("B", 1, 3, 2);
    ScoredRow("C", 2, 1, 3);
    AllCompete(a, b, c);
    AllCompete(c, a, b);
  }

  lemma SortThree(x: Standing, y: Standing, z: Standing, less: (Standing, Standing) -> bool)
    ensures less(y, x) && !less(z, x) ==> StableSort([x, y, z], less) == [y, x, z]
    ensures less(y, x) && less(z, x) && !less(z, y) ==> StableSort([x, y, z], less) == [y, z, x]
    ensures !less(y, x) && less(z, y) && !less(z, x) ==> StableSort([x, y, z], less) == [x, z, y]
  {
    assert [x, y, z][..2] == [x, y] && [x, y][..1] == [x] && [y, x][..1] == [y];
    assert StableSort([x], less) == [x];
    assert StableSort([x, y], less) == Insert([x], y, less);
    assert StableSort([x, y, z], less) == Insert(StableSort([x, y], less), z, less);
    assert Insert([], y, less) == [y];
    assert Insert([x], z, less) == if less(z, x) then [z, x] else [x, z];
    assert Insert([y], z, less) == if less(z, y) then [z, y] else [y, z];
  }
}
