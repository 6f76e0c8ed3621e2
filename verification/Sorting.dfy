// Stable sorting and competition ranking (1, 2, 2, 4), shared by every results table.
module Sorting {
  import opened Basics

  // Any stable sort yields this order; insertion is the simplest one.
  function Insert<T>(s: seq<T>, x: T, less: (T, T) -> bool): seq<T> {
    if s == [] || !less(x, s[|s| - 1]) then s + [x]
    else Insert(s[..|s| - 1], x, less) + [s[|s| - 1]]
  }

  function StableSort<T>(s: seq<T>, less: (T, T) -> bool): seq<T> {
    if s == [] then [] else Insert(StableSort(s[..|s| - 1], less), s[|s| - 1], less)
  }

  ghost predicate Asymmetric<T(!new)>(less: (T, T) -> bool) {
    forall a, b :: less(a, b) ==> !less(b, a)
  }

  // A strict weak order: asymmetric, and "not ahead of" is transitive.
  ghost predicate WeakOrder<T(!new)>(less: (T, T) -> bool) {
    && Asymmetric(less)
    && forall a, b, c :: !less(a, b) && !less(b, c) ==> !less(a, c)
  }

  ghost predicate AdjacentOrdered<T>(s: seq<T>, less: (T, T) -> bool) {
    forall i :: 0 < i < |s| ==> !less(s[i], s[i - 1])
  }

  ghost predicate Ordered<T>(s: seq<T>, less: (T, T) -> bool) {
    forall i, j :: 0 <= i < j < |s| ==> !less(s[j], s[i])
  }

  lemma {:induction false} InsertPermutes<T>(s: seq<T>, x: T, less: (T, T) -> bool)
    ensures multiset(Insert(s, x, less)) == multiset(s) + multiset{x}
    ensures |Insert(s, x, less)| == |s| + 1
  {
    if !(s == [] || !less(x, s[|s| - 1])) {
      InsertPermutes(s[..|s| - 1], x, less);
      assert s == s[..|s| - 1] + [s[|s| - 1]];
    }
  }

  lemma {:induction false} SortPermutes<T>(s: seq<T>, less: (T, T) -> bool)
    ensures multiset(StableSort(s, less)) == multiset(s)
    ensures |StableSort(s, less)| == |s|
  {
    if s != [] {
      SortPermutes(s[..|s| - 1], less);
      InsertPermutes(StableSort(s[..|s| - 1], less), s[|s| - 1], less);
      assert s == s[..|s| - 1] + [s[|s| - 1]];
    }
  }

  lemma SortMembers<T>(s: seq<T>, less: (T, T) -> bool)
    ensures forall x :: x in StableSort(s, less) <==> x in s
  {
    SortPermutes(s, less);
    forall x ensures x in StableSort(s, less) <==> x in s {
      assert x in multiset(s) <==> x in multiset(StableSort(s, less));
    }
  }

  // Only what the comparison says about the rows themselves matters.
  lemma {:induction false} InsertAgrees<T>(s: seq<T>, x: T, less: (T, T) -> bool, other: (T, T) -> bool)
    requires forall y <- s :: less(x, y) == other(x, y)
    ensures Insert(s, x, less) == Insert(s, x, other)
  {
    if s != [] { InsertAgrees(s[..|s| - 1], x, less, other); }
  }

  lemma {:induction false} SortAgrees<T>(s: seq<T>, less: (T, T) -> bool, other: (T, T) -> bool)
    requires forall a, b :: a in s && b in s ==> less(a, b) == other(a, b)
    ensures StableSort(s, less) == StableSort(s, other)
  {
    if s != [] {
      var init := s[..|s| - 1];
      SortAgrees(init, less, other);
      SortPermutes(init, other);
      forall y | y in StableSort(init, other) ensures less(s[|s| - 1], y) == other(s[|s| - 1], y) {
        assert y in multiset(init);
        assert y in init;
      }
      InsertAgrees(StableSort(init, other), s[|s| - 1], less, other);
    }
  }

  // The comparison is asymmetric on the rows being sorted.
  ghost predicate AsymmetricOn<T>(s: seq<T>, less: (T, T) -> bool) {
    forall a, b :: a in s && b in s && less(a, b) ==> !less(b, a)
  }

  // The last element of an insertion is the old last element or the new one.
  lemma {:induction false} InsertAdjacent<T(!new)>(s: seq<T>, x: T, less: (T, T) -> bool)
    requires (forall y <- s :: less(x, y) ==> !less(y, x)) && AdjacentOrdered(s, less)
    ensures AdjacentOrdered(Insert(s, x, less), less)
    ensures var r := Insert(s, x, less);
            r != [] && (r[|r| - 1] == x || (s != [] && r[|r| - 1] == s[|s| - 1]))
  {
    if !(s == [] || !less(x, s[|s| - 1])) {
      InsertAdjacent(s[..|s| - 1], x, less);
    }
  }

  // Neighbours come out in order for every asymmetric comparison, even a non-transitive one.
  lemma {:induction false} SortAdjacent<T(!new)>(s: seq<T>, less: (T, T) -> bool)
    requires AsymmetricOn(s, less)
    ensures AdjacentOrdered(StableSort(s, less), less)
  {
    if s != [] {
      SortAdjacent(s[..|s| - 1], less);
      SortMembers(s[..|s| - 1], less);
      InsertAdjacent(StableSort(s[..|s| - 1], less), s[|s| - 1], less);
    }
  }

  lemma FilterCommutes<T(!new)>(p: T -> bool, s: seq<T>, x: T, y: T)
    requires !p(x) || !p(y)
    ensures Filter(p, s) + Filter(p, [x]) + Filter(p, [y]) == Filter(p, s) + Filter(p, [y]) + Filter(p, [x])
  {
  }

  // Rows none of which is ahead of another keep the order they arrived in.
  lemma {:induction false} InsertStable<T(!new)>(s: seq<T>, x: T, less: (T, T) -> bool, p: T -> bool)
    requires forall a, b :: p(a) && p(b) ==> !less(a, b)
    ensures Filter(p, Insert(s, x, less)) == Filter(p, s) + Filter(p, [x])
  {
    if s == [] || !less(x, s[|s| - 1]) {
      FilterAppend(p, s, [x]);
    } else {
      var init, last := s[..|s| - 1], s[|s| - 1];
      InsertStable(init, x, less, p);
      FilterAppend(p, Insert(init, x, less), [last]);
      FilterAppend(p, init, [last]);
      assert init + [last] == s;
      assert !p(x) || !p(last);
      FilterCommutes(p, init, x, last);
    }
  }

  lemma {:induction false} SortStable<T(!new)>(s: seq<T>, less: (T, T) -> bool, p: T -> bool)
    requires forall a, b :: p(a) && p(b) ==> !less(a, b)
    ensures Filter(p, StableSort(s, less)) == Filter(p, s)
  {
    if s != [] {
      var init, last := s[..|s| - 1], s[|s| - 1];
      assert s == init + [last];
      SortStable(init, less, p);
      InsertStable(StableSort(init, less), last, less, p);
      FilterAppend(p, init, [last]);
    }
  }

  lemma {:induction false} AdjacentIsOrdered<T(!new)>(s: seq<T>, less: (T, T) -> bool)
    requires WeakOrder(less) && AdjacentOrdered(s, less)
    ensures Ordered(s, less)
  {
    forall i, j | 0 <= i < j < |s| ensures !less(s[j], s[i]) {
      AdjacentChain(s, less, i, j);
    }
  }

  lemma {:induction false} AdjacentChain<T(!new)>(s: seq<T>, less: (T, T) -> bool, i: nat, j: nat)
    requires WeakOrder(less) && AdjacentOrdered(s, less) && i < j < |s|
    ensures !less(s[j], s[i])
  {
    if i + 1 < j {
      AdjacentChain(s, less, i, j - 1);
      assert !less(s[j], s[j - 1]) && !less(s[j - 1], s[i]);
    }
  }

  lemma SortOrders<T(!new)>(s: seq<T>, less: (T, T) -> bool)
    requires WeakOrder(less)
    ensures Ordered(StableSort(s, less), less)
  {
    SortAdjacent(s, less);
    AdjacentIsOrdered(StableSort(s, less), less);
  }

  // No two different rows of s tie.
  ghost predicate TieFree<T>(s: seq<T>, less: (T, T) -> bool) {
    forall x, y :: x in s && y in s && x != y ==> less(x, y) || less(y, x)
  }

  lemma TailProperties<T(!new)>(s: seq<T>, less: (T, T) -> bool)
    requires s != [] && Ordered(s, less)
    ensures Ordered(s[1..], less) && multiset(s[1..]) == multiset(s) - multiset{s[0]}
    ensures TieFree(s, less) ==> TieFree(s[1..], less)
  {
    assert s == [s[0]] + s[1..];
  }

  lemma FirstAgrees<T(!new)>(a: seq<T>, b: seq<T>, less: (T, T) -> bool)
    requires a != [] && b != [] && multiset(a) == multiset(b) && Ordered(a, less) && Ordered(b, less)
    requires TieFree(a, less)
    ensures a[0] == b[0]
  {
    assert a[0] in multiset(b) && b[0] in multiset(a);
    var i :| 0 <= i < |a| && a[i] == b[0];
    var j :| 0 <= j < |b| && b[j] == a[0];
    assert i == 0 || !less(a[i], a[0]);
    assert j == 0 || !less(b[j], b[0]);
  }

  // Two ordered arrangements of the same rows agree when no two different rows tie.
  lemma {:induction false} OrderedUnique<T(!new)>(a: seq<T>, b: seq<T>, less: (T, T) -> bool)
    requires multiset(a) == multiset(b) && Ordered(a, less) && Ordered(b, less)
    requires TieFree(a, less)
    ensures a == b
  {
    assert |a| == |b| by {
      assert |multiset(a)| == |a| && |multiset(b)| == |b|;
    }
    if a != [] {
      FirstAgrees(a, b, less);
      TailProperties(a, less);
      TailProperties(b, less);
      assert multiset(a[1..]) == multiset(b[1..]);
      OrderedUnique(a[1..], b[1..], less);
      assert a == [a[0]] + a[1..] && b == [b[0]] + b[1..];
    }
  }

  // Sorting does not depend on the order the rows arrive in.
  lemma SortCanonical<T(!new)>(a: seq<T>, b: seq<T>, less: (T, T) -> bool)
    requires multiset(a) == multiset(b) && WeakOrder(less) && TieFree(a, less)
    ensures StableSort(a, less) == StableSort(b, less)
  {
    SortPermutes(a, less);
    SortPermutes(b, less);
    SortOrders(a, less);
    SortOrders(b, less);
    SortMembers(a, less);
    OrderedUnique(StableSort(a, less), StableSort(b, less), less);
  }

  // --- Competition ranking ---

  function CountAhead<T>(rows: seq<T>, x: T, ahead: (T, T) -> bool): nat {
    if rows == [] then 0 else (if ahead(rows[0], x) then 1 else 0) + CountAhead(rows[1..], x, ahead)
  }

  // The official place of row x among rows: one more than the rows strictly ahead of it.
  function Place<T>(rows: seq<T>, x: T, ahead: (T, T) -> bool): nat {
    1 + CountAhead(rows, x, ahead)
  }

  lemma {:induction false} CountAheadIsCount<T>(rows: seq<T>, x: T, ahead: (T, T) -> bool)
    ensures CountAhead(rows, x, ahead) == Count(y => ahead(y, x), rows)
  {
    if rows != [] { CountAheadIsCount(rows[1..], x, ahead); }
  }

  lemma PlacePermutation<T>(a: seq<T>, b: seq<T>, x: T, ahead: (T, T) -> bool)
    requires multiset(a) == multiset(b)
    ensures Place(a, x, ahead) == Place(b, x, ahead)
  {
    CountAheadIsCount(a, x, ahead);
    CountAheadIsCount(b, x, ahead);
    CountPermutation(y => ahead(y, x), a, b);
  }

  lemma {:induction false} CountAheadMono<T>(rows: seq<T>, x: T, y: T, ahead: (T, T) -> bool)
    requires forall r <- rows :: ahead(r, x) ==> ahead(r, y)
    ensures CountAhead(rows, x, ahead) <= CountAhead(rows, y, ahead)
  {
    if rows != [] { CountAheadMono(rows[1..], x, y, ahead); }
  }

  lemma {:induction false} CountAheadPrefix<T>(rows: seq<T>, x: T, n: nat, ahead: (T, T) -> bool)
    requires n <= |rows|
    requires forall k :: 0 <= k < |rows| ==> (ahead(rows[k], x) <==> k < n)
    ensures CountAhead(rows, x, ahead) == n
  {
    if rows != [] {
      assert ahead(rows[0], x) <==> 0 < n;
      CountAheadPrefix(rows[1..], x, if n == 0 then 0 else n - 1, ahead);
    }
  }

  // Rows that are not ahead of one another hold the same place; places never fall down an
  // ordered table.
  lemma PlaceMono<T(!new)>(rows: seq<T>, x: T, y: T, ahead: (T, T) -> bool)
    requires WeakOrder(ahead) && !ahead(y, x)
    ensures Place(rows, x, ahead) <= Place(rows, y, ahead)
    ensures !ahead(x, y) ==> Place(rows, x, ahead) == Place(rows, y, ahead)
  {
    CountAheadMono(rows, x, y, ahead);
    if !ahead(x, y) { CountAheadMono(rows, y, x, ahead); }
  }

  // Whoever is ahead has the better place.
  lemma PlaceStrict<T(!new)>(rows: seq<T>, x: T, y: T, ahead: (T, T) -> bool)
    requires WeakOrder(ahead) && ahead(x, y) && x in rows
    ensures Place(rows, x, ahead) < Place(rows, y, ahead)
  {
    CountAheadIsCount(rows, x, ahead);
    CountAheadIsCount(rows, y, ahead);
    assert !ahead(y, x);
    CountStrict(r => ahead(r, x), r => ahead(r, y), rows, x);
  }

  // In an ordered table a row's place is the place of the row above it when the two tie,
  // and its own position otherwise.
  lemma PlaceStep<T(!new)>(s: seq<T>, i: nat, ahead: (T, T) -> bool)
    requires WeakOrder(ahead) && Ordered(s, ahead) && i < |s|
    ensures i > 0 && !ahead(s[i - 1], s[i]) ==> Place(s, s[i], ahead) == Place(s, s[i - 1], ahead)
    ensures i == 0 || ahead(s[i - 1], s[i]) ==> Place(s, s[i], ahead) == i + 1
  {
    if i > 0 && !ahead(s[i - 1], s[i]) {
      PlaceMono(s, s[i - 1], s[i], ahead);
    } else {
      forall k | 0 <= k < |s| ensures ahead(s[k], s[i]) <==> k < i {
        if k < i {
          assert k < i - 1 ==> !ahead(s[i - 1], s[k]);
        } else if i < k {
          assert !ahead(s[k], s[i]);
        }
      }
      CountAheadPrefix(s, s[i], i, ahead);
    }
  }
}
