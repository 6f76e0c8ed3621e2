// The ranking table of a horizontal field event and the continuation order after its cut.
module FieldRanking {
  import opened Basics
  import opened Sorting
  import opened Marks
  import opened Vocabulary
  import opened FieldSeries

  // --- The ranking table ---

  datatype Row = Row(athlete: string, marks: seq<nat>, status: Status)

  datatype Standing = Standing(athlete: string, best: string, status: Status, rank: nat)

  function RowOf(s: Series): Row {
    Row(s.athlete, MarksDesc(s.attempts), SeriesStatus(s.attempts))
  }

  predicate MarksAhead(a: Row, b: Row) {
    CompareFrom(a.marks, b.marks, 0) > 0
  }

  predicate ListedBefore(a: Row, b: Row) {
    var c := CompareFrom(a.marks, b.marks, 0);
    if c != 0 then c > 0 else StringLess(a.athlete, b.athlete)
  }

  lemma RowOrders()
    ensures WeakOrder(MarksAhead) && WeakOrder(ListedBefore)
  {
    forall a: Row, b: Row ensures CompareFrom(a.marks, b.marks, 0) == -CompareFrom(b.marks, a.marks, 0) {
      CompareAntisymmetric(a.marks, b.marks, 0);
    }
    forall a, b | ListedBefore(a, b) ensures !ListedBefore(b, a) {
      StringLessAsymmetric(a.athlete, b.athlete);
    }
    forall a, b, c | !MarksAhead(a, b) && !MarksAhead(b, c) ensures !MarksAhead(a, c) {
      CompareTransitive(a.marks, b.marks, c.marks, 0);
    }
    forall a, b, c | !ListedBefore(a, b) && !ListedBefore(b, c) ensures !ListedBefore(a, c) {
      ListingTransitive(a, b, c);
    }
  }

  lemma ListingTransitive(a: Row, b: Row, c: Row)
    requires !ListedBefore(a, b) && !ListedBefore(b, c)
    ensures !ListedBefore(a, c)
  {
    CompareTransitive(a.marks, b.marks, c.marks, 0);
    CompareAntisymmetric(a.marks, c.marks, 0);
    CompareAntisymmetric(a.marks, b.marks, 0);
    CompareAntisymmetric(b.marks, c.marks, 0);
    if CompareFrom(a.marks, c.marks, 0) == 0 {
      if CompareFrom(a.marks, b.marks, 0) < 0 || CompareFrom(b.marks, c.marks, 0) < 0 {
        CompareMeaning(a.marks, c.marks, 0);
      } else {
        StringLessNegTransitive(a.athlete, b.athlete, c.athlete);
      }
    }
  }

  function BestText(marks: seq<nat>): string {
    if marks == [] then "" else FormatCentiMark(marks[0])
  }

  // The line the rules give a row: no rank without a valid mark, otherwise its place.
  function StandingAmong(rows: seq<Row>, r: Row): Standing {
    Standing(r.athlete, BestText(r.marks), r.status,
             if r.marks == [] then 0 else Place(rows, r, MarksAhead))
  }

  function LineIn(rows: seq<Row>): Row -> Standing {
    r => StandingAmong(rows, r)
  }

  function SortedRows(series: seq<Series>): seq<Row> {
    StableSort(Map(RowOf, series), ListedBefore)
  }

  function OfficialTable(series: seq<Series>): (table: seq<Standing>)
    ensures |table| == |SortedRows(series)|
  {
    Map(LineIn(SortedRows(series)), SortedRows(series))
  }

  lemma SortedRowsOrdered(series: seq<Series>)
    ensures Ordered(SortedRows(series), MarksAhead) && |SortedRows(series)| == |series|
    ensures multiset(SortedRows(series)) == multiset(Map(RowOf, series))
  {
    var rows := SortedRows(series);
    RowOrders();
    SortOrders(Map(RowOf, series), ListedBefore);
    SortPermutes(Map(RowOf, series), ListedBefore);
    forall i, j | 0 <= i < j < |rows| ensures !MarksAhead(rows[j], rows[i]) {
      assert !ListedBefore(rows[j], rows[i]);
    }
  }

  // The rank of row i follows from the row above it.
  lemma RankStep(rows: seq<Row>, i: nat)
    requires Ordered(rows, MarksAhead) && i < |rows|
    ensures i > 0 && CompareFrom(rows[i - 1].marks, rows[i].marks, 0) == 0 ==>
              rows[i - 1].marks == rows[i].marks
              && StandingAmong(rows, rows[i]).rank == StandingAmong(rows, rows[i - 1]).rank
    ensures i == 0 || CompareFrom(rows[i - 1].marks, rows[i].marks, 0) != 0 ==>
              Place(rows, rows[i], MarksAhead) == i + 1
  {
    RowOrders();
    PlaceStep(rows, i, MarksAhead);
    if i > 0 {
      CompareMeaning(rows[i - 1].marks, rows[i].marks, 0);
      CompareAntisymmetric(rows[i - 1].marks, rows[i].marks, 0);
      assert !MarksAhead(rows[i], rows[i - 1]);
    }
  }

  method RankFieldSeries(series: seq<Series>) returns (out: seq<Standing>)
    ensures out == OfficialTable(series)
    ensures multiset(out) == multiset(Map(MeaningIn(series), series))
    ensures forall s <- series :: Says(series, s, StandingOf(series, s))
    ensures BestFirst(out)
  {
    var unsorted := CollectRows(series);
    var rows := StableSort(unsorted, ListedBefore);
    SortedRowsOrdered(series);
    out := AssignRanks(rows);
    assert out == Map(LineIn(rows), rows);
    TableMeaning(series);
    TableOrdered(series);
    forall s <- series ensures Says(series, s, StandingOf(series, s)) { NextBestWrittenOut(series, s); }
  }

  method CollectRows(series: seq<Series>) returns (rows: seq<Row>)
    ensures rows == Map(RowOf, series)
  {
    rows := [];
    for i := 0 to |series|
      invariant |rows| == i
      invariant forall k :: 0 <= k < i ==> rows[k] == RowOf(series[k])
    {
      rows := rows + [RowOf(series[i])];
    }
  }

  method AssignRanks(rows: seq<Row>) returns (out: seq<Standing>)
    requires Ordered(rows, MarksAhead)
    ensures |out| == |rows| && forall k :: 0 <= k < |rows| ==> out[k] == StandingAmong(rows, rows[k])
  {
    out := [];
    for i := 0 to |rows|
      invariant |out| == i
      invariant forall k :: 0 <= k < i ==> out[k] == StandingAmong(rows, rows[k])
    {
      var r := rows[i];
      var rank := 0;
      RankStep(rows, i);
      if r.marks != [] {
        if i > 0 && CompareFrom(rows[i - 1].marks, r.marks, 0) == 0 {
          rank := out[i - 1].rank;
        } else {
          rank := i + 1;
        }
      }
      out := out + [Standing(r.athlete, BestText(r.marks), r.status, rank)];
    }
  }

  // --- What the table means ---

  // Series t ranks strictly ahead of series s under padded next-best comparison.
  predicate Better(t: Series, s: Series) {
    CompareFrom(MarksDesc(t.attempts), MarksDesc(s.attempts), 0) > 0
  }

  function StandingOf(series: seq<Series>, s: Series): Standing {
    Standing(s.athlete, BestText(MarksDesc(s.attempts)), SeriesStatus(s.attempts),
             if MarksDesc(s.attempts) == [] then 0 else Place(series, s, Better))
  }

  lemma {:induction false} CountRows(series: seq<Series>, s: Series)
    ensures CountAhead(Map(RowOf, series), RowOf(s), MarksAhead) == CountAhead(series, s, Better)
  {
    if series != [] {
      CountRows(series[1..], s);
      assert Map(RowOf, series)[1..] == Map(RowOf, series[1..]);
    }
  }

  function MeaningIn(series: seq<Series>): Series -> Standing {
    s => StandingOf(series, s)
  }

  // Every athlete gets exactly one line; it shows the series' own best and status, and its
  // rank is one more than the number of series strictly better, or 0 without a valid mark.
  lemma TableMeaning(series: seq<Series>)
    ensures |OfficialTable(series)| == |series|
    ensures multiset(OfficialTable(series)) == multiset(Map(MeaningIn(series), series))
  {
    var rows := SortedRows(series);
    SortedRowsOrdered(series);
    MapPermutation(LineIn(rows), rows, Map(RowOf, series));
    forall i | 0 <= i < |series|
      ensures Map(LineIn(rows), Map(RowOf, series))[i] == Map(MeaningIn(series), series)[i]
    {
      LineMeaning(series, series[i]);
    }
    assert Map(LineIn(rows), Map(RowOf, series)) == Map(MeaningIn(series), series);
  }

  lemma LineMeaning(series: seq<Series>, s: Series)
    ensures StandingAmong(SortedRows(series), RowOf(s)) == StandingOf(series, s)
  {
    SortedRowsOrdered(series);
    PlacePermutation(SortedRows(series), Map(RowOf, series), RowOf(s), MarksAhead);
    CountRows(series, s);
  }

  // --- Next best, written out over the trials ---

  // The attempt is a measured one.
  predicate Measures(a: Attempt, centi: nat) { a.kind.Valid? && CentiMark(a.mark) == Ok(centi) }

  // All measured marks of the attempts, each as often as it was jumped or thrown, best first.
  ghost predicate LongestFirst(attempts: seq<Attempt>, marks: seq<nat>) {
    && (forall i, j :: 0 <= i < j < |marks| ==> marks[i] >= marks[j])
    && forall m: nat :: multiset(marks)[m] == Count(a => Measures(a, m), attempts)
  }

  // At the first place where the two differ the one has the longer mark, or the other has none.
  ghost predicate LongerFirst(a: seq<nat>, b: seq<nat>) { exists k: nat :: LongerAt(a, b, k) }

  ghost predicate LongerAt(a: seq<nat>, b: seq<nat>, k: nat) {
    k < |a| && a[..k] <= b && (k == |b| || a[k] > b[k])
  }

  ghost predicate Beats(t: Series, s: Series) {
    exists a, b :: LongestFirst(t.attempts, a) && LongestFirst(s.attempts, b) && LongerFirst(a, b)
  }

  ghost function Beating(s: Series): Series -> bool { t => Beats(t, s) }

  ghost predicate Says(series: seq<Series>, s: Series, line: Standing) {
    && line.athlete == s.athlete
    && if exists a, m: nat :: a in s.attempts && Measures(a, m) then
         && line.rank == 1 + Count(Beating(s), series)
         && (exists a, m: nat :: a in s.attempts && Measures(a, m) && line.best == FormatCentiMark(m)
               && forall b, n: nat :: b in s.attempts && Measures(b, n) ==> n <= m)
         && line.status == (if exists a <- s.attempts :: a.kind.Retire? then Retired else Unset)
       else
         && line.rank == 0 && line.best == ""
         && line.status == (if exists a <- s.attempts :: a.kind.Retire? then Retired
                            else if s.attempts != [] then NM else Unset)
  }

  lemma {:induction false} MarksCounted(attempts: seq<Attempt>, m: nat)
    ensures multiset(ValidMarks(attempts))[m] == Count(a => Measures(a, m), attempts)
  {
    if attempts != [] { MarksCounted(attempts[1..], m); }
  }

  lemma MarksAreLongestFirst(attempts: seq<Attempt>)
    ensures LongestFirst(attempts, MarksDesc(attempts))
    ensures forall marks: seq<nat> :: LongestFirst(attempts, marks) ==> marks == MarksDesc(attempts)
  {
    var sorted := MarksDesc(attempts);
    SortPermutes(ValidMarks(attempts), Greater);
    SortOrders(ValidMarks(attempts), Greater);
    forall i, j | 0 <= i < j < |sorted| ensures sorted[i] >= sorted[j] { assert !Greater(sorted[j], sorted[i]); }
    forall m: nat ensures multiset(sorted)[m] == Count(a => Measures(a, m), attempts) { MarksCounted(attempts, m); }
    forall marks: seq<nat> | LongestFirst(attempts, marks) ensures marks == sorted {
      assert multiset(marks) == multiset(sorted) by {
        forall m: nat ensures multiset(marks)[m] == multiset(sorted)[m] { MarksCounted(attempts, m); }
      }
      assert Ordered<nat>(marks, Greater) && Ordered<nat>(sorted, Greater) && TieFree<nat>(marks, Greater);
      OrderedUnique<nat>(marks, sorted, Greater);
    }
  }

  lemma ComparedMeansLonger(a: seq<nat>, b: seq<nat>)
    ensures CompareFrom(a, b, 0) > 0 <==> LongerFirst(a, b)
  {
    CompareMeaning(a, b, 0);
    if LongerFirst(a, b) {
      var k: nat :| LongerAt(a, b, k);
      forall j: nat | j < k ensures At(a, j) == At(b, j) { assert a[..k][j] == b[j]; }
      assert DecidesAt(a, b, k);
      DecidesOnce(a, b, k);
    }
    if CompareFrom(a, b, 0) > 0 {
      var k: nat :| DecidesAt(a, b, k) && CompareFrom(a, b, 0) == At(a, k) - At(b, k);
      DecidesLonger(a, b, k);
      assert LongerAt(a, b, k);
    }
  }

  lemma DecidesLonger(a: seq<nat>, b: seq<nat>, k: nat)
    requires DecidesAt(a, b, k) && At(a, k) > At(b, k)
    ensures LongerAt(a, b, k)
  {
    assert k < |a|;
    assert |b| < k ==> At(a, |b|) == At(b, |b|);
    forall j: nat | j < k ensures a[..k][j] == b[j] { assert At(a, j) == At(b, j); }
  }

  lemma DecidesOnce(a: seq<nat>, b: seq<nat>, k: nat)
    requires DecidesAt(a, b, k)
    ensures CompareFrom(a, b, 0) == At(a, k) - At(b, k)
  {
    CompareMeaning(a, b, 0);
    assert At(a, k) != At(b, k);
    var l: nat :| DecidesAt(a, b, l) && CompareFrom(a, b, 0) == At(a, l) - At(b, l);
    assert k == l;
  }

  lemma BetterBeats(t: Series, s: Series)
    ensures Better(t, s) <==> Beats(t, s)
  {
    MarksAreLongestFirst(t.attempts);
    MarksAreLongestFirst(s.attempts);
    ComparedMeansLonger(MarksDesc(t.attempts), MarksDesc(s.attempts));
  }

  lemma {:induction false} BetterCounted(all: seq<Series>, s: Series)
    ensures CountAhead(all, s, Better) == Count(Beating(s), all)
  {
    if all != [] {
      BetterCounted(all[1..], s);
      BetterBeats(all[0], s);
    }
  }

  // Each line says what the trials say.
  lemma NextBestWrittenOut(series: seq<Series>, s: Series)
    ensures Says(series, s, StandingOf(series, s))
  {
    var marks := MarksDesc(s.attempts);
    BetterCounted(series, s);
    DescendingMembers(ValidMarks(s.attempts));
    ValidMarksMembers(s.attempts);
    SortMembers(ValidMarks(s.attempts), Greater);
    forall m: nat ensures m in marks <==> exists a <- s.attempts :: Measures(a, m) {}
    if marks != [] {
      assert marks[0] in marks;
      var a :| a in s.attempts && Measures(a, marks[0]);
    }
  }

  // Ranked lines come first, by rank, those without a rank last; equal ranks stand by athlete.
  ghost predicate BestFirst(table: seq<Standing>) {
    forall i, j :: 0 <= i < j < |table| ==>
      && (table[i].rank == 0 ==> table[j].rank == 0)
      && (table[j].rank != 0 ==> table[i].rank <= table[j].rank)
      && (table[i].rank == table[j].rank ==> !StringLess(table[j].athlete, table[i].athlete))
  }

  lemma TableOrdered(series: seq<Series>)
    ensures BestFirst(OfficialTable(series))
  {
    var rows := SortedRows(series);
    RowOrders();
    SortOrders(Map(RowOf, series), ListedBefore);
    forall i, j | 0 <= i < j < |rows|
      ensures StandingAmong(rows, rows[i]).rank == 0 ==> StandingAmong(rows, rows[j]).rank == 0
      ensures StandingAmong(rows, rows[j]).rank != 0 ==> StandingAmong(rows, rows[i]).rank <= StandingAmong(rows, rows[j]).rank
      ensures StandingAmong(rows, rows[i]).rank == StandingAmong(rows, rows[j]).rank ==>
                !StringLess(rows[j].athlete, rows[i].athlete)
    {
      RowsOrdered(rows, rows[i], rows[j]);
    }
  }

  lemma RowsOrdered(rows: seq<Row>, a: Row, b: Row)
    requires WeakOrder(MarksAhead) && !ListedBefore(b, a) && a in rows && b in rows
    ensures StandingAmong(rows, a).rank == 0 ==> StandingAmong(rows, b).rank == 0
    ensures StandingAmong(rows, b).rank != 0 ==> StandingAmong(rows, a).rank <= StandingAmong(rows, b).rank
    ensures StandingAmong(rows, a).rank == StandingAmong(rows, b).rank ==> !StringLess(b.athlete, a.athlete)
  {
    CompareAntisymmetric(a.marks, b.marks, 0);
    CompareMeaning(a.marks, b.marks, 0);
    assert !MarksAhead(b, a);
    PlaceMono(rows, a, b, MarksAhead);
    if MarksAhead(a, b) { PlaceStrict(rows, a, b, MarksAhead); }
    if b.marks != [] { NothingIsBehind(b.marks); }
  }

  lemma NothingIsBehind(marks: seq<nat>)
    requires marks != []
    ensures CompareFrom(marks, [], 0) > 0
  {
    assert DecidesAt(marks, [], 0);
    DecidesOnce(marks, [], 0);
  }

  ghost predicate DistinctAthletes(series: seq<Series>) {
    forall i, j :: 0 <= i < j < |series| ==> series[i].athlete != series[j].athlete
  }

  // The table does not depend on the order athletes are listed in.
  lemma TableOrderIndependent(a: seq<Series>, b: seq<Series>)
    requires multiset(a) == multiset(b) && DistinctAthletes(a)
    ensures OfficialTable(a) == OfficialTable(b)
  {
    MapPermutation(RowOf, a, b);
    RowOrders();
    RowsTieFree(a);
    SortCanonical(Map(RowOf, a), Map(RowOf, b), ListedBefore);
  }

  lemma RowsTieFree(series: seq<Series>)
    requires DistinctAthletes(series)
    ensures TieFree(Map(RowOf, series), ListedBefore)
  {
    forall x, y | x in Map(RowOf, series) && y in Map(RowOf, series) && x != y
      ensures ListedBefore(x, y) || ListedBefore(y, x)
    {
      CompareAntisymmetric(x.marks, y.marks, 0);
      StringLessTotal(x.athlete, y.athlete);
    }
  }

  // --- The field cut ---

  function RetiredMap(series: seq<Series>): map<string, bool> {
    if series == [] then map[]
    else RetiredMap(series[..|series| - 1])[series[|series| - 1].athlete := HasRetired(series[|series| - 1].attempts)]
  }

  // Stays in: not retired, a valid mark, and fewer than topN series strictly better.
  predicate Continues(series: seq<Series>, s: Series, topN: int) {
    !HasRetired(s.attempts) && MarksDesc(s.attempts) != [] && CountAhead(series, s, Better) < topN
  }

  predicate Kept(st: Standing, retired: map<string, bool>, topN: int) {
    st.athlete in retired && !retired[st.athlete] && st.rank != 0 && st.rank <= topN
  }

  // from lists, ascending, exactly the positions of the table whose lines are kept.
  ghost predicate Selects(from: seq<nat>, ranked: seq<Standing>, retired: map<string, bool>, topN: int) {
    && (forall k :: 0 <= k < |from| ==> from[k] < |ranked| && Kept(ranked[from[k]], retired, topN))
    && (forall k, l :: 0 <= k < l < |from| ==> from[k] < from[l])
    && (forall i :: 0 <= i < |ranked| && Kept(ranked[i], retired, topN) ==> i in from)
  }

  method KeepWithin(ranked: seq<Standing>, retired: map<string, bool>, topN: int)
    returns (qualified: seq<Standing>, ghost from: seq<nat>)
    requires forall st <- ranked :: st.athlete in retired
    ensures Selects(from, ranked, retired, topN) && |qualified| == |from|
    ensures forall k :: 0 <= k < |from| ==> qualified[k] == ranked[from[k]]
  {
    qualified, from := [], [];
    for i := 0 to |ranked|
      invariant |from| == |qualified|
      invariant forall k :: 0 <= k < |from| ==> from[k] < i && Kept(ranked[from[k]], retired, topN)
      invariant forall k :: 0 <= k < |from| ==> qualified[k] == ranked[from[k]]
      invariant forall k, l :: 0 <= k < l < |from| ==> from[k] < from[l]
      invariant forall k :: 0 <= k < i && Kept(ranked[k], retired, topN) ==> k in from
    {
      var st := ranked[i];
      if !(st.rank == 0 || retired[st.athlete]) && st.rank <= topN {
        qualified, from := qualified + [st], from + [i];
      }
    }
  }

  method RetiredFlags(series: seq<Series>) returns (retired: map<string, bool>)
    ensures retired == RetiredMap(series)
  {
    retired := map[];
    for i := 0 to |series|
      invariant retired == RetiredMap(series[..i])
    {
      retired := retired[series[i].athlete := HasRetired(series[i].attempts)];
      assert series[..i + 1][..i] == series[..i];
    }
    assert series[..|series|] == series;
  }

  // The athletes who go on, worst first, for the remaining trials.
  method FieldContinuation(series: seq<Series>, topN: int) returns (out: seq<string>)
    ensures DistinctAthletes(series) ==> CompetingOrder(series, topN, out)
  {
    var ranked := RankFieldSeries(series);
    var retired := RetiredFlags(series);
    LinesHaveFlags(series);
    var qualified, from := KeepWithin(ranked, retired, topN);
    out := BottomUp(qualified);
    if DistinctAthletes(series) {
      BottomUpReverses(from, ranked, qualified, out);
      ReversedSelection(series, topN, from, out);
    }
  }

  lemma BottomUpReverses(from: seq<nat>, ranked: seq<Standing>, qualified: seq<Standing>, out: seq<string>)
    requires |out| == |qualified| == |from| && forall k :: 0 <= k < |from| ==> from[k] < |ranked|
    requires forall k :: 0 <= k < |from| ==> qualified[k] == ranked[from[k]]
    requires forall i :: 0 <= i < |out| ==> out[i] == qualified[|qualified| - 1 - i].athlete
    ensures Reversed(from, ranked, out)
  {
    forall i | 0 <= i < |out| ensures out[i] == ranked[from[|from| - 1 - i]].athlete {
      assert qualified[|from| - 1 - i] == ranked[from[|from| - 1 - i]];
    }
  }

  method BottomUp(qualified: seq<Standing>) returns (out: seq<string>)
    ensures |out| == |qualified|
    ensures forall i :: 0 <= i < |out| ==> out[i] == qualified[|qualified| - 1 - i].athlete
  {
    out := [];
    for i := 0 to |qualified|
      invariant |out| == i
      invariant forall k :: 0 <= k < i ==> out[k] == qualified[i - 1 - k].athlete
    {
      out := [qualified[i].athlete] + out;
    }
  }

  lemma LinesHaveFlags(series: seq<Series>)
    ensures forall st <- OfficialTable(series) :: st.athlete in RetiredMap(series)
  {
    TableLines(series);
    RetiredMapMeaning(series);
  }

  // out lists the kept lines' athletes from the bottom of the table upwards.
  ghost predicate Reversed(from: seq<nat>, ranked: seq<Standing>, out: seq<string>) {
    && |out| == |from| && (forall k :: 0 <= k < |from| ==> from[k] < |ranked|)
    && forall i :: 0 <= i < |out| ==> out[i] == ranked[from[|from| - 1 - i]].athlete
  }

  ghost predicate DistinctLines(ranked: seq<Standing>) {
    forall i, j :: 0 <= i < j < |ranked| ==> ranked[i].athlete != ranked[j].athlete
  }

  lemma ReversedDistinct(from: seq<nat>, ranked: seq<Standing>, retired: map<string, bool>, topN: int, out: seq<string>)
    requires Selects(from, ranked, retired, topN) && Reversed(from, ranked, out) && DistinctLines(ranked)
    ensures Distinct(out)
  {
    forall i, j | 0 <= i < j < |out| ensures out[i] != out[j] {
      assert from[|from| - 1 - j] < from[|from| - 1 - i];
    }
  }

  lemma ReversedMembers(from: seq<nat>, ranked: seq<Standing>, retired: map<string, bool>, topN: int,
                        out: seq<string>, id: string)
    requires Selects(from, ranked, retired, topN) && Reversed(from, ranked, out)
    ensures id in out <==> exists st <- ranked :: st.athlete == id && Kept(st, retired, topN)
  {
    if id in out {
      var i :| 0 <= i < |out| && out[i] == id;
      assert ranked[from[|from| - 1 - i]] in ranked;
    }
    if st :| st in ranked && st.athlete == id && Kept(st, retired, topN) {
      var i :| 0 <= i < |ranked| && ranked[i] == st;
      var k :| 0 <= k < |from| && from[k] == i;
      assert out[|from| - 1 - k] == id;
    }
  }

  lemma KeptMeansContinues(series: seq<Series>, topN: int, id: string)
    requires DistinctAthletes(series)
    ensures (exists st <- OfficialTable(series) :: st.athlete == id && Kept(st, RetiredMap(series), topN))
            <==> exists s <- series :: s.athlete == id && Continues(series, s, topN)
  {
    RetiredMapMeaning(series);
    TableLines(series);
    forall s <- series ensures Kept(StandingOf(series, s), RetiredMap(series), topN) <==> Continues(series, s, topN) {
      KeptLine(series, s, topN);
    }
  }

  lemma KeptLine(series: seq<Series>, s: Series, topN: int)
    requires s.athlete in RetiredMap(series) && RetiredMap(series)[s.athlete] == HasRetired(s.attempts)
    ensures Kept(StandingOf(series, s), RetiredMap(series), topN) <==> Continues(series, s, topN)
  {}

  // Exactly the athletes who continue, each once, nobody before an athlete they beat.
  ghost predicate CompetingOrder(series: seq<Series>, topN: int, out: seq<string>) {
    && Distinct(out)
    && (forall id :: id in out <==> exists s <- series :: s.athlete == id && Continues(series, s, topN))
    && (forall i, j :: 0 <= i < j < |out| ==> NotBetter(series, out[i], out[j]))
  }

  ghost predicate NotBetter(series: seq<Series>, a: string, b: string) {
    forall s, t :: s in series && t in series && s.athlete == a && t.athlete == b ==> !Better(s, t)
  }

  lemma ReversedSelection(series: seq<Series>, topN: int, from: seq<nat>, out: seq<string>)
    requires DistinctAthletes(series)
    requires Selects(from, OfficialTable(series), RetiredMap(series), topN)
    requires Reversed(from, OfficialTable(series), out)
    ensures CompetingOrder(series, topN, out)
  {
    var table, retired := OfficialTable(series), RetiredMap(series);
    TableDistinct(series);
    ReversedDistinct(from, table, retired, topN, out);
    forall id ensures id in out <==> exists s <- series :: s.athlete == id && Continues(series, s, topN) {
      ReversedMembers(from, table, retired, topN, out, id);
      KeptMeansContinues(series, topN, id);
    }
    forall i, j | 0 <= i < j < |out| ensures NotBetter(series, out[i], out[j]) {
      forall s, t | s in series && t in series && s.athlete == out[i] && t.athlete == out[j] ensures !Better(s, t) {
        TableOrder(series, from[|from| - 1 - j], from[|from| - 1 - i], t, s);
      }
    }
  }

  lemma {:induction false} RetiredMapMeaning(series: seq<Series>)
    ensures forall id :: id in RetiredMap(series) <==> exists s <- series :: s.athlete == id
    ensures DistinctAthletes(series) ==> forall s <- series :: RetiredMap(series)[s.athlete] == HasRetired(s.attempts)
  {
    if series != [] {
      var init, last := series[..|series| - 1], series[|series| - 1];
      RetiredMapMeaning(init);
      assert series == init + [last];
    }
  }

  // Table lines and series correspond.
  lemma TableLines(series: seq<Series>)
    ensures forall st <- OfficialTable(series) :: exists s <- series :: st == StandingOf(series, s)
    ensures forall s <- series :: StandingOf(series, s) in OfficialTable(series)
  {
    var lines := Map(MeaningIn(series), series);
    TableMeaning(series);
    forall st <- OfficialTable(series) ensures exists s <- series :: st == StandingOf(series, s) {
      assert st in multiset(lines);
      var i :| 0 <= i < |lines| && lines[i] == st;
      assert series[i] in series;
    }
    forall s <- series ensures StandingOf(series, s) in OfficialTable(series) {
      var i :| 0 <= i < |series| && series[i] == s;
      assert lines[i] in multiset(OfficialTable(series));
    }
  }

  // Nobody lower in the table beats anybody above.
  lemma TableOrder(series: seq<Series>, i: nat, j: nat, s: Series, t: Series)
    requires DistinctAthletes(series) && i < j < |OfficialTable(series)| && s in series && t in series
    requires s.athlete == OfficialTable(series)[i].athlete && t.athlete == OfficialTable(series)[j].athlete
    ensures !Better(t, s)
  {
    SortedRowsOrdered(series);
    RowsBelong(series, i, s);
    RowsBelong(series, j, t);
    assert !MarksAhead(SortedRows(series)[j], SortedRows(series)[i]);
  }

  lemma RowsBelong(series: seq<Series>, i: nat, s: Series)
    requires DistinctAthletes(series) && s in series && i < |SortedRows(series)|
    requires SortedRows(series)[i].athlete == s.athlete
    ensures SortedRows(series)[i] == RowOf(s)
  {
    SortedRowsOrdered(series);
    var r := SortedRows(series)[i];
    assert r in multiset(Map(RowOf, series));
    var k :| 0 <= k < |series| && RowOf(series[k]) == r;
    var l :| 0 <= l < |series| && series[l] == s;
    assert series[k].athlete == series[l].athlete;
  }

  lemma TableDistinct(series: seq<Series>)
    requires DistinctAthletes(series)
    ensures DistinctLines(OfficialTable(series))
  {
    var rows := SortedRows(series);
    SortedRowsOrdered(series);
    MapPermutation(RowAthlete, rows, Map(RowOf, series));
    DistinctPermutation(Map(RowAthlete, Map(RowOf, series)), Map(RowAthlete, rows));
    var t := OfficialTable(series);
    forall i, j | 0 <= i < j < |t| ensures t[i].athlete != t[j].athlete {
      assert Map(RowAthlete, rows)[i] != Map(RowAthlete, rows)[j];
    }
  }

  function RowAthlete(r: Row): string { r.athlete }
}
