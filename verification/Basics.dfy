// Small shared vocabulary: optional values, outcomes, the byte order on identifiers, and
// counting over sequences.
module Basics {
  datatype Option<+T> = None | Some(value: T)

  datatype Result<+T, +E> = Ok(value: T) | Err(error: E)
  {
    predicate IsFailure() { Err? }

    function PropagateFailure<U>(): Result<U, E>
      requires Err?
    {
      Err(error)
    }

    function Extract(): T
      requires Ok?
    {
      value
    }
  }

  // --- The order Go's `<` puts on strings ---

  predicate StringLess(a: string, b: string) {
    b != "" && (a == "" || a[0] < b[0] || (a[0] == b[0] && StringLess(a[1..], b[1..])))
  }

  lemma StringLessAsymmetric(a: string, b: string)
    ensures !(StringLess(a, b) && StringLess(b, a))
  {}

  lemma {:induction false} StringLessTotal(a: string, b: string)
    ensures a == b || StringLess(a, b) || StringLess(b, a)
  {
    if a != "" && b != "" && a[0] == b[0] {
      StringLessTotal(a[1..], b[1..]);
      assert a == [a[0]] + a[1..] && b == [b[0]] + b[1..];
    }
  }

  lemma {:induction false} StringLessNegTransitive(a: string, b: string, c: string)
    requires !StringLess(a, b) && !StringLess(b, c)
    ensures !StringLess(a, c)
  {
    if a != "" && b != "" && c != "" && a[0] == b[0] == c[0] {
      StringLessNegTransitive(a[1..], b[1..], c[1..]);
    }
  }

  // --- Counting ---

  function Count<T>(p: T -> bool, s: seq<T>): nat {
    if s == [] then 0 else (if p(s[0]) then 1 else 0) + Count(p, s[1..])
  }

  lemma {:induction false} CountAppend<T>(p: T -> bool, a: seq<T>, b: seq<T>)
    ensures Count(p, a + b) == Count(p, a) + Count(p, b)
  {
    if a == [] {
      assert a + b == b;
    } else {
      assert (a + b)[1..] == a[1..] + b;
      CountAppend(p, a[1..], b);
    }
  }

  // What is counted depends only on which elements occur, and how often.
  lemma {:induction false} CountPermutation<T>(p: T -> bool, a: seq<T>, b: seq<T>)
    requires multiset(a) == multiset(b)
    ensures Count(p, a) == Count(p, b)
  {
    if a == [] {
      assert |multiset(b)| == |b|;
    } else {
      var j := RemoveMatching(a, b);
      CountPermutation(p, a[1..], b[..j] + b[j + 1..]);
      CountAppend(p, b[..j], b[j + 1..]);
      CountAppend(p, b[..j], b[j..]);
      assert b == b[..j] + b[j..];
    }
  }

  lemma RemoveMatching<T>(a: seq<T>, b: seq<T>) returns (j: nat)
    requires a != [] && multiset(a) == multiset(b)
    ensures j < |b| && b[j] == a[0]
    ensures multiset(a[1..]) == multiset(b[..j] + b[j + 1..])
  {
    assert a[0] in multiset(a);
    assert a[0] in b;
    j :| 0 <= j < |b| && b[j] == a[0];
    assert b == b[..j] + [b[j]] + b[j + 1..];
    assert a == [a[0]] + a[1..];
    assert multiset(b[..j] + b[j + 1..]) == multiset(b) - multiset{b[j]};
    assert multiset(a[1..]) == multiset(a) - multiset{a[0]};
  }

  lemma {:induction false} CountMono<T>(p: T -> bool, q: T -> bool, s: seq<T>)
    requires forall x <- s :: p(x) ==> q(x)
    ensures Count(p, s) <= Count(q, s) <= |s|
  {
    if s != [] { CountMono(p, q, s[1..]); }
  }

  lemma {:induction false} CountStrict<T>(p: T -> bool, q: T -> bool, s: seq<T>, x: T)
    requires forall y <- s :: p(y) ==> q(y)
    requires x in s && q(x) && !p(x)
    ensures Count(p, s) < Count(q, s)
  {
    assert s == [s[0]] + s[1..];
    if x == s[0] { CountMono(p, q, s[1..]); } else { CountStrict(p, q, s[1..], x); }
  }

  lemma {:induction false} CountEq<T>(p: T -> bool, q: T -> bool, s: seq<T>)
    requires forall x <- s :: p(x) == q(x)
    ensures Count(p, s) == Count(q, s)
  {
    if s != [] { CountEq(p, q, s[1..]); }
  }

  // If p holds exactly on a prefix, the count is that prefix's length.
  lemma {:induction false} CountPrefix<T>(p: T -> bool, s: seq<T>, n: nat)
    requires n <= |s|
    requires forall i :: 0 <= i < |s| ==> (p(s[i]) <==> i < n)
    ensures Count(p, s) == n
  {
    if s != [] {
      assert p(s[0]) <==> 0 < n;
      CountPrefix(p, s[1..], if n == 0 then 0 else n - 1);
    }
  }

  function Filter<T(!new)>(p: T -> bool, s: seq<T>): (r: seq<T>)
    ensures |r| == Count(p, s)
    ensures forall x :: x in r <==> x in s && p(x)
  {
    if s == [] then [] else
    assert s == [s[0]] + s[1..];
    (if p(s[0]) then [s[0]] else []) + Filter(p, s[1..])
  }

  lemma {:induction false} FilterAppend<T(!new)>(p: T -> bool, a: seq<T>, b: seq<T>)
    ensures Filter(p, a + b) == Filter(p, a) + Filter(p, b)
  {
    if a == [] {
      assert a + b == b;
    } else {
      assert (a + b)[1..] == a[1..] + b;
      FilterAppend(p, a[1..], b);
    }
  }

  lemma {:induction false} FilterNone<T(!new)>(p: T -> bool, s: seq<T>)
    requires forall x <- s :: !p(x)
    ensures Filter(p, s) == []
  {
    if s != [] { FilterNone(p, s[1..]); }
  }

  lemma {:induction false} FilterAll<T(!new)>(p: T -> bool, s: seq<T>)
    requires forall x <- s :: p(x)
    ensures Filter(p, s) == s
  {
    if s != [] { FilterAll(p, s[1..]); }
  }

  // What a loop that filters s from the front has gathered after one more element.
  lemma FilterNext<T(!new)>(p: T -> bool, s: seq<T>, i: nat)
    requires i < |s|
    ensures Filter(p, s[..i + 1]) == Filter(p, s[..i]) + (if p(s[i]) then [s[i]] else [])
  {
    assert s[..i + 1] == s[..i] + [s[i]];
    FilterAppend(p, s[..i], [s[i]]);
  }

  lemma {:induction false} FilterEq<T(!new)>(p: T -> bool, q: T -> bool, s: seq<T>)
    requires forall x <- s :: p(x) == q(x)
    ensures Filter(p, s) == Filter(q, s)
  {
    if s != [] { FilterEq(p, q, s[1..]); }
  }

  lemma {:induction false} FilterMultiplicity<T(!new)>(p: T -> bool, s: seq<T>, x: T)
    ensures multiset(Filter(p, s))[x] == if p(x) then multiset(s)[x] else 0
  {
    if s != [] {
      assert s == [s[0]] + s[1..];
      FilterMultiplicity(p, s[1..], x);
    }
  }

  lemma FilterPermutation<T(!new)>(p: T -> bool, a: seq<T>, b: seq<T>)
    requires multiset(a) == multiset(b)
    ensures multiset(Filter(p, a)) == multiset(Filter(p, b))
  {
    forall x ensures multiset(Filter(p, a))[x] == multiset(Filter(p, b))[x] {
      FilterMultiplicity(p, a, x);
      FilterMultiplicity(p, b, x);
    }
  }

  function Map<A, B>(f: A -> B, s: seq<A>): (r: seq<B>)
    ensures |r| == |s|
    ensures forall i :: 0 <= i < |s| ==> r[i] == f(s[i])
  {
    if s == [] then [] else [f(s[0])] + Map(f, s[1..])
  }

  lemma MapLast<A, B>(f: A -> B, s: seq<A>)
    requires s != []
    ensures Map(f, s) == Map(f, s[..|s| - 1]) + [f(s[|s| - 1])]
  {
    var n := |s| - 1;
    var whole, init := Map(f, s), Map(f, s[..n]);
    forall i | 0 <= i < n ensures whole[i] == init[i] {
      assert s[..n][i] == s[i];
    }
    assert whole == whole[..n] + [whole[n]] && whole[..n] == init;
  }

  lemma {:induction false} MapPermutation<A, B>(f: A -> B, a: seq<A>, b: seq<A>)
    requires multiset(a) == multiset(b)
    ensures multiset(Map(f, a)) == multiset(Map(f, b))
  {
    if a == [] {
      assert |multiset(b)| == |b|;
    } else {
      var j := RemoveMatching(a, b);
      MapPermutation(f, a[1..], b[..j] + b[j + 1..]);
      assert Map(f, b[..j] + b[j + 1..]) == Map(f, b)[..j] + Map(f, b)[j + 1..];
      assert Map(f, b) == Map(f, b)[..j] + [f(b[j])] + Map(f, b)[j + 1..];
    }
  }

  lemma {:induction false} FilterMap<A(!new), B(!new)>(p: B -> bool, q: A -> bool, f: A -> B, s: seq<A>)
    requires forall x <- s :: q(x) == p(f(x))
    ensures Filter(p, Map(f, s)) == Map(f, Filter(q, s))
  {
    if s != [] {
      FilterMap(p, q, f, s[1..]);
      assert Map(f, s)[1..] == Map(f, s[1..]);
    }
  }

  // --- Searching ---

  function FirstIndex<T>(p: T -> bool, s: seq<T>): (i: nat)
    ensures i <= |s|
    ensures i < |s| ==> p(s[i])
    ensures forall k :: 0 <= k < i ==> !p(s[k])
  {
    if s == [] || p(s[0]) then 0 else 1 + FirstIndex(p, s[1..])
  }

  lemma FirstIs<T>(p: T -> bool, s: seq<T>, i: nat)
    requires i < |s| && p(s[i]) && forall j :: 0 <= j < i ==> !p(s[j])
    ensures FirstIndex(p, s) == i
  {}

  // --- The greatest of a set ---

  predicate IsTop(s: set<int>, top: int) {
    top in s && forall h <- s :: h <= top
  }

  lemma HasTop(s: set<int>, x: int)
    requires x in s
    ensures exists top :: IsTop(s, top)
    decreases |s|
  {
    if y :| y in s && y != x {
      var rest := s - {x};
      HasTop(rest, y);
      var top :| IsTop(rest, top);
      assert forall h <- s :: h == x || h in rest;
      assert IsTop(s, if x > top then x else top);
    } else {
      assert IsTop(s, x);
    }
  }

  function Top(s: set<int>): (top: int)
    requires exists x :: x in s
    ensures IsTop(s, top)
  {
    SomeTop(s);
    var top :| top in s && IsTop(s, top);
    top
  }

  lemma SomeTop(s: set<int>)
    requires exists x :: x in s
    ensures exists top :: IsTop(s, top)
  {
    var x :| x in s;
    HasTop(s, x);
  }

  ghost predicate Distinct<T>(s: seq<T>) {
    forall i, j :: 0 <= i < j < |s| ==> s[i] != s[j]
  }

  lemma DistinctPermutation<T>(a: seq<T>, b: seq<T>)
    requires Distinct(a) && multiset(a) == multiset(b)
    ensures Distinct(b)
  {
    forall i, j | 0 <= i < j < |b| ensures b[i] != b[j] {
      if b[i] == b[j] {
        assert b == b[..i] + [b[i]] + b[i + 1..j] + [b[j]] + b[j + 1..];
        assert multiset(b)[b[i]] >= 2;
        AtMostOnce(a, b[i]);
      }
    }
  }

  lemma {:induction false} AtMostOnce<T>(a: seq<T>, x: T)
    requires Distinct(a)
    ensures multiset(a)[x] <= 1
  {
    if a != [] {
      assert a == [a[0]] + a[1..];
      AtMostOnce(a[1..], x);
      if a[0] == x { assert x !in a[1..]; }
    }
  }
}
