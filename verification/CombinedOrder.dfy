// When the majority ranking of a combined event depends on the order its rows are supplied in:
// exactly when some three rows beat each other in a circle.
module CombinedOrder {
  import opened Basics
  import opened Sorting
  import opened Combined

  // --- Sorting by a comparison that need not be transitive ---

  ghost predicate CycleFree<T(!new)>(s: seq<T>, less: (T, T) -> bool) {
    forall a, b, c :: a in s && b in s && c in s ==> !(less(a, b) && less(b, c) && less(c, a))
  }

  // The comparison within s, everything else put ahead of it.
  ghost function Within<T(!new)>(s: seq<T>, less: (T, T) -> bool): (T, T) -> bool {
    (a: T, b: T) => b in s && (a in s ==> less(a, b))
  }

  lemma WithinOrders<T(!new)>(s: seq<T>, less: (T, T) -> bool)
    requires AsymmetricOn(s, less) && TieFree(s, less) && CycleFree(s, less)
    ensures WeakOrder(Within(s, less))
  {
    var within := Within(s, less);
    forall a, b, c | !within(a, b) && !within(b, c) ensures !within(a, c) {
      assert a in s && b in s && a != b ==> less(b, a);
      assert b in s && c in s && b != c ==> less(c, b);
    }
  }

  lemma CycleFreeSorts<T(!new)>(a: seq<T>, b: seq<T>, less: (T, T) -> bool)
    requires multiset(a) == multiset(b)
    requires AsymmetricOn(a, less) && TieFree(a, less) && CycleFree(a, less)
    ensures StableSort(a, less) == StableSort(b, less)
  {
    var within := Within(a, less);
    WithinOrders(a, less);
    forall x ensures x in a <==> x in b { assert x in multiset(a) <==> x in multiset(b); }
    SortAgrees(a, less, within);
    SortAgrees(b, less, within);
    SortCanonical(a, b, within);
  }

  ghost predicate Precedes<T>(s: seq<T>, x: T, y: T) {
    exists i, j :: 0 <= i < j < |s| && s[i] == x && s[j] == y
  }

  lemma {:induction false} InsertKeepsOrder<T(!new)>(s: seq<T>, e: T, less: (T, T) -> bool, x: T, y: T)
    requires Precedes(s, x, y)
    ensures Precedes(Insert(s, e, less), x, y)
  {
    var i, j :| 0 <= i < j < |s| && s[i] == x && s[j] == y;
    var n, r := |s| - 1, Insert(s, e, less);
    InsertPermutes(s, e, less);
    if !less(e, s[n]) {
      assert r[i] == x && r[j] == y;
    } else if j < n {
      assert s[..n][i] == x && s[..n][j] == y;
      InsertKeepsOrder(s[..n], e, less, x, y);
      PrecedesAppend(Insert(s[..n], e, less), [s[n]], x, y);
    } else {
      InsertPermutes(s[..n], e, less);
      assert s[..n][i] == x;
      assert x in multiset(Insert(s[..n], e, less));
      var k :| 0 <= k < |r| - 1 && Insert(s[..n], e, less)[k] == x;
      assert r[k] == x && r[|r| - 1] == y;
    }
  }

  lemma PrecedesAppend<T>(s: seq<T>, t: seq<T>, x: T, y: T)
    requires Precedes(s, x, y)
    ensures Precedes(s + t, x, y)
  {
    var i, j :| 0 <= i < j < |s| && s[i] == x && s[j] == y;
    assert (s + t)[i] == x && (s + t)[j] == y;
  }

  // Later rows never change the order of earlier ones.
  lemma {:induction false} SortKeepsOrder<T(!new)>(s: seq<T>, t: seq<T>, less: (T, T) -> bool, x: T, y: T)
    requires Precedes(StableSort(s, less), x, y)
    ensures Precedes(StableSort(s + t, less), x, y)
  {
    if t == [] {
      assert s + t == s;
    } else {
      var n := |t| - 1;
      SortKeepsOrder(s, t[..n], less, x, y);
      assert (s + t)[..|s + t| - 1] == s + t[..n] && (s + t)[|s + t| - 1] == t[n];
      InsertKeepsOrder(StableSort(s + t[..n], less), t[n], less, x, y);
    }
  }

  // --- The rows of a combined event ---

  const MAJORITY := ListedBefore(MajorityThenHighest)

  function Eligible(rows: seq<Standing>): seq<Standing> { Map(Scored(), Filter(InCompetition(), rows)) }

  function Name(): Standing -> string { (r: Standing) => r.athlete }

  // One in-competition row per athlete, all over the same disciplines.
  ghost predicate OneRowEach(rows: seq<Standing>) {
    SameLength(rows) && Distinct(Map(Name(), Eligible(rows)))
  }

  // No three in-competition rows are listed each before the next all the way round.
  ghost predicate NoCircle(rows: seq<Standing>) {
    CycleFree(Eligible(rows), MAJORITY)
  }

  lemma EligibleTieFree(rows: seq<Standing>)
    requires OneRowEach(rows)
    ensures AsymmetricOn(Eligible(rows), MAJORITY) && TieFree(Eligible(rows), MAJORITY)
  {
    var s := Eligible(rows);
    ListedAsymmetric(rows);
    forall x, y | x in s && y in s && x != y ensures MAJORITY(x, y) || MAJORITY(y, x) {
      NamesDiffer(s, x, y);
      ScoredSameLength(rows, x, y);
      ListedEitherWay(x, y);
    }
  }

  lemma NamesDiffer(s: seq<Standing>, x: Standing, y: Standing)
    requires Distinct(Map(Name(), s)) && x in s && y in s && x != y
    ensures x.athlete != y.athlete
  {
    var i :| 0 <= i < |s| && s[i] == x;
    var j :| 0 <= j < |s| && s[j] == y;
    assert Map(Name(), s)[i] == x.athlete && Map(Name(), s)[j] == y.athlete;
    assert i < j || j < i;
  }

  lemma ListedEitherWay(x: Standing, y: Standing)
    requires |x.performances| == |y.performances| && x.athlete != y.athlete
    ensures Listed(MajorityThenHighest, x, y) || Listed(MajorityThenHighest, y, x)
  {
    ComparisonAntisymmetric(x, y);
    StringLessTotal(x.athlete, y.athlete);
  }

  lemma EligiblePermutes(a: seq<Standing>, b: seq<Standing>)
    requires multiset(a) == multiset(b)
    ensures multiset(Eligible(a)) == multiset(Eligible(b))
  {
    FilterPermutation(InCompetition(), a, b);
    MapPermutation(Scored(), Filter(InCompetition(), a), Filter(InCompetition(), b));
  }

  lemma NoCircleSuffices(rows: seq<Standing>, other: seq<Standing>)
    requires OneRowEach(rows) && NoCircle(rows) && multiset(other) == multiset(rows)
    ensures RankedRows(other, MajorityThenHighest) == RankedRows(rows, MajorityThenHighest)
  {
    EligibleTieFree(rows);
    EligiblePermutes(rows, other);
    CycleFreeSorts(Eligible(rows), Eligible(other), MAJORITY);
  }

  // --- A circle shows in the table ---

  // The names down the table, in the order of the sorted rows.
  lemma NamesOfTable(rows: seq<Standing>)
    ensures Map(Name(), RankedRows(rows, MajorityThenHighest)) == Map(Name(), StableSort(Eligible(rows), MAJORITY))
  {}

  lemma NamesPrecede(s: seq<Standing>, x: Standing, y: Standing)
    requires Precedes(s, x, y)
    ensures Precedes(Map(Name(), s), x.athlete, y.athlete)
  {
    var i, j :| 0 <= i < j < |s| && s[i] == x && s[j] == y;
    assert Map(Name(), s)[i] == x.athlete && Map(Name(), s)[j] == y.athlete;
  }

  lemma NotBothWays(names: seq<string>, p: string, q: string)
    requires Distinct(names)
    ensures !(Precedes(names, p, q) && Precedes(names, q, p))
  {}

  lemma TableNamesDistinct(rows: seq<Standing>, other: seq<Standing>)
    requires OneRowEach(rows) && multiset(other) == multiset(rows)
    ensures Distinct(Map(Name(), StableSort(Eligible(other), MAJORITY)))
  {
    EligiblePermutes(rows, other);
    SortPermutes(Eligible(other), MAJORITY);
    MapPermutation(Name(), StableSort(Eligible(other), MAJORITY), Eligible(rows));
    DistinctPermutation(Map(Name(), Eligible(rows)), Map(Name(), StableSort(Eligible(other), MAJORITY)));
  }

  // Three different rows can be supplied first.
  lemma Front(rows: seq<Standing>, x: Standing) returns (rest: seq<Standing>)
    requires x in rows
    ensures multiset(rows) == multiset([x] + rest) && (forall y <- rows :: y != x ==> y in rest)
  {
    var i :| 0 <= i < |rows| && rows[i] == x;
    rest := rows[..i] + rows[i + 1..];
    assert rows == rows[..i] + [x] + rows[i + 1..];
  }

  lemma ThreeInFront(rows: seq<Standing>, x: Standing, y: Standing, z: Standing) returns (rest: seq<Standing>)
    requires x in rows && y in rows && z in rows && x != y && y != z && x != z
    ensures multiset(rows) == multiset([x, y, z] + rest) && multiset(rows) == multiset([y, z, x] + rest)
  {
    var notX := Front(rows, x);
    var notXY := Front(notX, y);
    rest := Front(notXY, z);
    assert [x, y, z] + rest == [x] + ([y] + ([z] + rest));
    assert [y, z, x] + rest == [y] + [z] + [x] + rest;
    assert multiset([x] + notX) == multiset([x]) + multiset(notX);
    assert multiset([y] + notXY) == multiset([y]) + multiset(notXY);
    assert multiset([z] + rest) == multiset([z]) + multiset(rest);
  }

  lemma FirstThree(x: Standing, y: Standing, z: Standing, rest: seq<Standing>)
    requires !x.outOfCompetition && !y.outOfCompetition && !z.outOfCompetition
    requires var (a, b, c) := (Scored()(x), Scored()(y), Scored()(z)); !MAJORITY(b, a) && !MAJORITY(c, b)
    ensures Precedes(StableSort(Eligible([x, y, z] + rest), MAJORITY), Scored()(x), Scored()(y))
    ensures Precedes(StableSort(Eligible([x, y, z] + rest), MAJORITY), Scored()(y), Scored()(z))
    ensures Precedes(StableSort(Eligible([x, y, z] + rest), MAJORITY), Scored()(x), Scored()(z))
  {
    var a, b, c := Scored()(x), Scored()(y), Scored()(z);
    FilterAppend(InCompetition(), [x, y, z], rest);
    ThreeStay(x, y, z);
    MapAppend(Scored(), [x, y, z], Filter(InCompetition(), rest));
    var three := [a, b, c];
    assert Map(Scored(), [x, y, z]) == three;
    assert three[..2] == [a, b] && [a, b][..1] == [a];
    assert StableSort([a], MAJORITY) == [a];
    assert StableSort([a, b], MAJORITY) == [a, b];
    assert StableSort(three, MAJORITY) == three;
    assert three[0] == a && three[1] == b && three[2] == c;
    SortKeepsOrder(three, Eligible(rest), MAJORITY, a, b);
    SortKeepsOrder(three, Eligible(rest), MAJORITY, b, c);
    SortKeepsOrder(three, Eligible(rest), MAJORITY, a, c);
  }

  lemma ThreeStay(x: Standing, y: Standing, z: Standing)
    requires !x.outOfCompetition && !y.outOfCompetition && !z.outOfCompetition
    ensures Filter(InCompetition(), [x, y, z]) == [x, y, z]
  {
    assert [x, y, z][1..] == [y, z] && [y, z][1..] == [z] && [z][1..] == [];
    assert Filter(InCompetition(), [z]) == [z];
    assert Filter(InCompetition(), [y, z]) == [y] + Filter(InCompetition(), [z]);
    assert Filter(InCompetition(), [x, y, z]) == [x] + Filter(InCompetition(), [y, z]);
  }

  // A circle, supplied from two of its places, gives two tables.
  lemma CircleShows(rows: seq<Standing>) returns (one: seq<Standing>, two: seq<Standing>)
    requires OneRowEach(rows) && !NoCircle(rows)
    ensures multiset(one) == multiset(rows) && multiset(two) == multiset(rows)
    ensures RankedRows(one, MajorityThenHighest) != RankedRows(two, MajorityThenHighest)
  {
    var a, b, c :| a in Eligible(rows) && b in Eligible(rows) && c in Eligible(rows)
                   && MAJORITY(a, b) && MAJORITY(b, c) && MAJORITY(c, a);
    EligibleTieFree(rows);
    var x := SourceOf(rows, a);
    var y := SourceOf(rows, b);
    var z := SourceOf(rows, c);
    var rest := ThreeInFront(rows, x, y, z);
    one, two := [x, y, z] + rest, [y, z, x] + rest;
    FirstThree(x, y, z, rest);
    FirstThree(y, z, x, rest);
    NamesPrecede(StableSort(Eligible(one), MAJORITY), a, c);
    NamesPrecede(StableSort(Eligible(two), MAJORITY), c, a);
    NamesOfTable(one);
    NamesOfTable(two);
    TableNamesDistinct(rows, one);
    NotBothWays(Map(Name(), StableSort(Eligible(one), MAJORITY)), a.athlete, c.athlete);
  }

  lemma SourceOf(rows: seq<Standing>, s: Standing) returns (r: Standing)
    requires s in Eligible(rows)
    ensures r in rows && !r.outOfCompetition && Scored()(r) == s
  {
    var i :| 0 <= i < |Eligible(rows)| && Eligible(rows)[i] == s;
    r := Filter(InCompetition(), rows)[i];
    assert r in Filter(InCompetition(), rows);
  }

  // With one row per athlete, the majority table is the same for every order the rows are
  // supplied in if and only if no three rows beat each other in a circle.
  lemma OrderMattersExactly(rows: seq<Standing>)
    requires OneRowEach(rows)
    ensures (forall other: seq<Standing> | multiset(other) == multiset(rows) ::
               RankedRows(other, MajorityThenHighest) == RankedRows(rows, MajorityThenHighest))
            <==> NoCircle(rows)
  {
    if NoCircle(rows) {
      forall other: seq<Standing> | multiset(other) == multiset(rows)
        ensures RankedRows(other, MajorityThenHighest) == RankedRows(rows, MajorityThenHighest)
      {
        NoCircleSuffices(rows, other);
      }
    } else {
      var one, two := CircleShows(rows);
      assert RankedRows(one, MajorityThenHighest) != RankedRows(two, MajorityThenHighest);
    }
  }
}
