// Horizontal field events: validating trials, ranking by best mark with next-best
// tie-breaking, and the continuation order after the field cut.
module FieldSeries {
  import opened Basics
  import opened Sorting
  import opened Marks
  import opened Vocabulary

  // A wind reading is compared for equality only.
  type Wind = int

  datatype AttemptKind = Valid | Foul | Pass | Retire | Unknown(code: string)

  datatype Attempt = Attempt(trial: int, kind: AttemptKind, mark: string, wind: Option<Wind>)

  datatype Series = Series(athlete: string, attempts: seq<Attempt>)

  // --- One trial ---

  // The trial as it is stored, its mark in canonical spelling; None when it is refused.
  function Validated(a: Attempt, windRelevant: bool): Option<Attempt> {
    if a.trial < 1 then None else
    var mark: Option<string> :=
      match a.kind
      case Valid =>
        var centi := CentiMark(a.mark);
        if centi.Ok? && centi.value != 0 then Some(FormatCentiMark(centi.value)) else None
      case Unknown(_) => None
      case _ => if a.mark == "" then Some("") else None;
    if mark.None? || (a.wind.Some? && !windRelevant) then None else Some(a.(mark := mark.value))
  }

  // What capture stores is canonical: it passes again and is stored unchanged.
  lemma ValidatedIsNormalForm(a: Attempt, windRelevant: bool)
    requires Validated(a, windRelevant).Some?
    ensures var stored := Validated(a, windRelevant).value;
            && Validated(stored, windRelevant) == Some(stored)
            && (a.kind.Valid? ==> CentiMark(stored.mark) == CentiMark(a.mark))
            && (stored == a <==> (a.kind.Valid? ==> a.mark == Canonical(a.mark)))
  {
    if a.kind.Valid? { CanonicalIsNormalForm(a.mark, a.mark); }
  }

  // Which trials are taken, and as what: a trial number from one; a known kind, with a readable mark
  // above zero if it is valid and none if it is not; and wind only where it counts.
  lemma ValidatedExactly(a: Attempt, windRelevant: bool, stored: Attempt)
    ensures Validated(a, windRelevant) == Some(stored) <==>
            && a.trial >= 1 && (a.wind.Some? ==> windRelevant)
            && stored.trial == a.trial && stored.kind == a.kind && stored.wind == a.wind
            && match a.kind
               case Valid => CentiMark(a.mark).Ok? && CentiMark(a.mark).value > 0 && stored.mark == Canonical(a.mark)
               case Unknown(_) => false
               case _ => a.mark == "" && stored.mark == ""
  {}

  // --- One athlete's series ---

  predicate HasRetired(attempts: seq<Attempt>) {
    exists a <- attempts :: a.kind.Retire?
  }

  // A mark's centi-units, 0 when it does not parse.
  function ValidMarks(attempts: seq<Attempt>): seq<nat> {
    if attempts == [] then [] else
    var a := attempts[0];
    (if a.kind.Valid? && CentiMark(a.mark).Ok? then [CentiMark(a.mark).value] else [])
    + ValidMarks(attempts[1..])
  }

  predicate Greater(a: nat, b: nat) { a > b }

  // Best first: the vector next-best comparison walks.
  function MarksDesc(attempts: seq<Attempt>): seq<nat> {
    StableSort(ValidMarks(attempts), Greater)
  }

  function Best(attempts: seq<Attempt>): Option<string> {
    var marks := MarksDesc(attempts);
    if marks == [] then None else Some(FormatCentiMark(marks[0]))
  }

  function SeriesStatus(attempts: seq<Attempt>): Status {
    if HasRetired(attempts) then Retired
    else if Best(attempts).None? && attempts != [] then NM
    else Unset
  }

  lemma {:induction false} ValidMarksAppend(a: seq<Attempt>, b: seq<Attempt>)
    ensures ValidMarks(a + b) == ValidMarks(a) + ValidMarks(b)
  {
    if a == [] {
      assert a + b == b;
    } else {
      assert (a + b)[1..] == a[1..] + b;
      ValidMarksAppend(a[1..], b);
    }
  }

  lemma ValidMarksSplit(b: seq<Attempt>, j: nat)
    requires j < |b|
    ensures multiset(ValidMarks(b)) ==
            multiset(ValidMarks(b[..j] + b[j + 1..])) + multiset(ValidMarks([b[j]]))
  {
    var before, it, after := b[..j], [b[j]], b[j + 1..];
    assert b == before + (it + after);
    ValidMarksAppend(before, it + after);
    ValidMarksAppend(it, after);
    ValidMarksAppend(before, after);
  }

  lemma {:induction false} ValidMarksPermutation(a: seq<Attempt>, b: seq<Attempt>)
    requires multiset(a) == multiset(b)
    ensures multiset(ValidMarks(a)) == multiset(ValidMarks(b))
  {
    assert |multiset(a)| == |a| && |multiset(b)| == |b|;
    if a != [] {
      var j := RemoveMatching(a, b);
      ValidMarksPermutation(a[1..], b[..j] + b[j + 1..]);
      ValidMarksSplit(a, 0);
      ValidMarksSplit(b, j);
      assert a[..0] + a[1..] == a[1..];
    }
  }

  // The best mark beats or equals every valid mark, whatever order trials are listed in.
  lemma SeriesOrderIndependent(a: seq<Attempt>, b: seq<Attempt>)
    requires multiset(a) == multiset(b)
    ensures MarksDesc(a) == MarksDesc(b) && Best(a) == Best(b) && SeriesStatus(a) == SeriesStatus(b)
  {
    ValidMarksPermutation(a, b);
    SortCanonical(ValidMarks(a), ValidMarks(b), Greater);
    assert |multiset(a)| == |a| && |multiset(b)| == |b|;
    forall x ensures x in a <==> x in b { assert x in multiset(a) <==> x in multiset(b); }
  }

  lemma {:induction false} ValidMarksMembers(attempts: seq<Attempt>)
    ensures forall m :: m in ValidMarks(attempts) <==>
              exists a <- attempts :: a.kind.Valid? && CentiMark(a.mark) == Ok(m)
  {
    if attempts != [] {
      ValidMarksMembers(attempts[1..]);
      assert attempts == [attempts[0]] + attempts[1..];
    }
  }

  lemma DescendingMembers(marks: seq<nat>)
    ensures var s := StableSort(marks, Greater);
            && (s == [] <==> marks == [])
            && (s != [] ==> s[0] in marks && forall m <- marks :: m <= s[0])
  {
    var s := StableSort(marks, Greater);
    SortPermutes(marks, Greater);
    SortOrders(marks, Greater);
    SortMembers(marks, Greater);
    if s != [] {
      assert s[0] in marks;
      forall m <- marks ensures m <= s[0] {
        var i :| 0 <= i < |s| && s[i] == m;
        assert i == 0 || !Greater(s[i], s[0]);
      }
    }
  }

  // The best mark is the greatest among the valid trials, in canonical spelling.
  lemma BestIsMaximum(attempts: seq<Attempt>)
    ensures Best(attempts).None? <==> ValidMarks(attempts) == []
    ensures Best(attempts).Some? ==>
              exists top <- ValidMarks(attempts) ::
                Best(attempts) == Some(FormatCentiMark(top)) && forall m <- ValidMarks(attempts) :: m <= top
  {
    DescendingMembers(ValidMarks(attempts));
  }

  predicate Measured(a: Attempt) { a.kind.Valid? && CentiMark(a.mark).Ok? }

  // This trial has the longest mark measured.
  ghost predicate Longest(attempts: seq<Attempt>, a: Attempt) {
    a in attempts && Measured(a) && forall b <- attempts :: Measured(b) ==> CentiMark(b.mark).value <= CentiMark(a.mark).value
  }

  // The best mark is that of a longest trial, and there is one as soon as anything was measured.
  lemma BestIsLongest(attempts: seq<Attempt>)
    ensures if exists a <- attempts :: Measured(a)
            then exists a :: Longest(attempts, a) && Best(attempts) == Some(Canonical(a.mark))
            else Best(attempts) == None
  {
    BestIsMaximum(attempts);
    ValidMarksMembers(attempts);
    forall a <- attempts ensures Measured(a) ==> CentiMark(a.mark).value in ValidMarks(attempts) {}
    if Best(attempts).Some? {
      var top :| top in ValidMarks(attempts) && Best(attempts) == Some(FormatCentiMark(top))
                 && forall m <- ValidMarks(attempts) :: m <= top;
      var a :| a in attempts && a.kind.Valid? && CentiMark(a.mark) == Ok(top);
      assert Longest(attempts, a);
    }
  }

  // A best mark reads back.
  lemma BestReadable(attempts: seq<Attempt>)
    ensures Best(attempts).Some? ==> CentiMark(Best(attempts).value).Ok?
  {
    BestIsMaximum(attempts);
    ValidMarksMembers(attempts);
    if Best(attempts).Some? {
      var top :| top in ValidMarks(attempts) && Best(attempts) == Some(FormatCentiMark(top));
      var a :| a in attempts && a.kind.Valid? && CentiMark(a.mark) == Ok(top);
      CentiMarkBounded(a.mark);
      ParsePrint(top);
    }
  }

  // --- Next-best comparison ---

  function At(marks: seq<nat>, i: nat): int {
    if i < |marks| then marks[i] else -1
  }

  function CompareFrom(a: seq<nat>, b: seq<nat>, i: nat): int
    decreases |a| + |b| - i
  {
    if i >= |a| && i >= |b| then 0
    else if At(a, i) != At(b, i) then At(a, i) - At(b, i)
    else CompareFrom(a, b, i + 1)
  }

  // Positive when a ranks ahead: the first place where the two series differ decides, and
  // a missing next-best loses to any mark.
  ghost predicate DecidesAt(a: seq<nat>, b: seq<nat>, k: nat) {
    (forall j: nat | j < k :: At(a, j) == At(b, j)) && At(a, k) != At(b, k)
  }

  method CompareMarks(a: seq<nat>, b: seq<nat>) returns (c: int)
    ensures c == 0 <==> a == b
    ensures forall k: nat | DecidesAt(a, b, k) :: c == At(a, k) - At(b, k)
    ensures c == CompareFrom(a, b, 0)
  {
    var i := 0;
    while i < |a| || i < |b|
      invariant forall j: nat | j < i :: At(a, j) == At(b, j)
      invariant i == 0 || (i <= |a| && i <= |b|)
      invariant CompareFrom(a, b, i) == CompareFrom(a, b, 0)
      decreases |a| + |b| - i
    {
      var ma: int, mb: int := -1, -1;
      if i < |a| { ma := a[i]; }
      if i < |b| { mb := b[i]; }
      assert ma == At(a, i) && mb == At(b, i);
      if ma != mb {
        assert DecidesAt(a, b, i);
        return ma - mb;
      }
      i := i + 1;
    }
    assert |a| == |b|;
    forall k | 0 <= k < |a| ensures a[k] == b[k] {
      assert At(a, k) == At(b, k);
    }
    return 0;
  }

  lemma SameLength(a: seq<nat>, b: seq<nat>)
    requires forall j: nat | j < |a| || j < |b| :: At(a, j) == At(b, j)
    ensures |a| == |b|
  {
    var last := (if |a| < |b| then |b| else |a|) - 1;
    assert last >= 0 ==> At(a, last) == At(b, last);
  }

  lemma {:induction false} CompareMeaning(a: seq<nat>, b: seq<nat>, i: nat)
    requires forall j: nat | j < i :: At(a, j) == At(b, j)
    ensures CompareFrom(a, b, i) == 0 <==> a == b
    ensures CompareFrom(a, b, i) != 0 ==>
              exists k: nat :: DecidesAt(a, b, k) && CompareFrom(a, b, i) == At(a, k) - At(b, k)
    decreases |a| + |b| - i
  {
    if i >= |a| && i >= |b| {
      SameLength(a, b);
      forall k | 0 <= k < |a| ensures a[k] == b[k] { assert At(a, k) == At(b, k); }
    } else if At(a, i) != At(b, i) {
      assert DecidesAt(a, b, i);
    } else {
      CompareMeaning(a, b, i + 1);
    }
  }

  lemma {:induction false} CompareAntisymmetric(a: seq<nat>, b: seq<nat>, i: nat)
    ensures CompareFrom(a, b, i) == -CompareFrom(b, a, i)
    decreases |a| + |b| - i
  {
    if (i < |a| || i < |b|) && At(a, i) == At(b, i) { CompareAntisymmetric(a, b, i + 1); }
  }

  lemma {:induction false} CompareTransitive(a: seq<nat>, b: seq<nat>, c: seq<nat>, i: nat)
    requires CompareFrom(a, b, i) <= 0 && CompareFrom(b, c, i) <= 0
    ensures CompareFrom(a, c, i) <= 0
    decreases |a| + |b| + |c| - i
  {
    if (i < |a| || i < |b| || i < |c|) && At(a, i) == At(b, i) == At(c, i) {
      CompareTransitive(a, b, c, i + 1);
    }
  }
}
