// Progression to the next round: places in each heat, then the best of the rest by time; and
// the field version, a standard and then the best of the rest by mark. A tie for the last
// places is surfaced, never decided (internal/domain/progression.go).
module Progression {
  import opened Basics
  import opened Marks
  import opened Sorting
  import opened Vocabulary

  datatype AdvancementRule = AdvancementRule(topN: int, fastestK: int)

  datatype HeatFinish = HeatFinish(entry: string, place: int, mark: string, status: Status)

  datatype FieldFinish = FieldFinish(entry: string, mark: string)

  datatype Advancement = Advancement(entry: string, code: Status)

  datatype TimeTie = TimeTie(mark: string, entries: seq<string>, slots: int)

  // One entry competing by performance.
  datatype Timed = Timed(id: string, mark: string, centi: nat)

  function WithCode(code: Status): Timed -> Advancement { (t: Timed) => Advancement(t.id, code) }

  function IdOf(): Timed -> string { (t: Timed) => t.id }

  // --- Filling k places by performance ---

  predicate Before(higher: bool, a: Timed, b: Timed) {
    if higher then a.centi > b.centi else a.centi < b.centi
  }

  function Ahead(higher: bool): (Timed, Timed) -> bool { (a: Timed, b: Timed) => Before(higher, a, b) }

  function BetterThan(higher: bool, t: Timed): Timed -> bool { (u: Timed) => Before(higher, u, t) }

  function NoWorseThan(higher: bool, t: Timed): Timed -> bool { (u: Timed) => !Before(higher, t, u) }

  function LevelWith(t: Timed): Timed -> bool { (u: Timed) => u.centi == t.centi }

  // At most k rows are as good as t, t included: t has a place whatever happens to the others.
  function Clear(pool: seq<Timed>, k: int, higher: bool): Timed -> bool {
    (t: Timed) => Count(NoWorseThan(higher, t), pool) <= k
  }

  // Fewer than k rows beat t, but t and its equals do not all fit.
  function Contested(pool: seq<Timed>, k: int, higher: bool): Timed -> bool {
    (t: Timed) => Count(BetterThan(higher, t), pool) < k < Count(NoWorseThan(higher, t), pool)
  }

  function Through(pool: seq<Timed>, k: int, higher: bool): seq<Timed> {
    Filter(Clear(pool, k, higher), pool)
  }

  function Tied(pool: seq<Timed>, k: int, higher: bool): seq<Timed> {
    Filter(Contested(pool, k, higher), pool)
  }

  function Surfaced(tied: seq<Timed>, slots: int): Option<TimeTie> {
    if tied == [] then None else Some(TimeTie(tied[0].mark, Map(IdOf(), tied), slots))
  }

  function TieAt(pool: seq<Timed>, k: int, higher: bool): Option<TimeTie> {
    Surfaced(Tied(pool, k, higher), k - |Through(pool, k, higher)|)
  }

  lemma NoWorseMeans(higher: bool, t: Timed, u: Timed)
    ensures NoWorseThan(higher, t)(u) <==> BetterThan(higher, t)(u) || LevelWith(t)(u)
    ensures !(BetterThan(higher, t)(u) && LevelWith(t)(u))
  {}

  lemma AheadIsWeakOrder(higher: bool)
    ensures WeakOrder(Ahead(higher))
  {}

  // In an ordered pool the rows better than row k - 1 come before it, and the rows no worse
  // reach at least to it.
  lemma CutCounts(pool: seq<Timed>, k: int, higher: bool)
    requires Ordered(pool, Ahead(higher)) && 0 < k <= |pool|
    ensures Count(BetterThan(higher, pool[k - 1]), pool) < k <= Count(NoWorseThan(higher, pool[k - 1]), pool)
  {
    FewBetter(pool, k, higher);
    var noWorse := NoWorseThan(higher, pool[k - 1]);
    assert pool == pool[..k] + pool[k..];
    CountAppend(noWorse, pool[..k], pool[k..]);
    CountPrefix(noWorse, pool[..k], k);
  }

  lemma FewBetter(pool: seq<Timed>, k: int, higher: bool)
    requires Ordered(pool, Ahead(higher)) && 0 < k <= |pool|
    ensures Count(BetterThan(higher, pool[k - 1]), pool) < k
  {
    var better := BetterThan(higher, pool[k - 1]);
    assert pool == pool[..k - 1] + pool[k - 1..];
    CountAppend(better, pool[..k - 1], pool[k - 1..]);
    CountMono(better, better, pool[..k - 1]);
    CountPrefix(better, pool[k - 1..], 0);
  }

  lemma {:induction false} CountSplit(higher: bool, t: Timed, pool: seq<Timed>)
    ensures Count(NoWorseThan(higher, t), pool) == Count(BetterThan(higher, t), pool) + Count(LevelWith(t), pool)
  {
    if pool != [] {
      CountSplit(higher, t, pool[1..]);
      NoWorseMeans(higher, t, pool[0]);
    }
  }

  // How an entry stands against the row holding the last place.
  lemma AgainstTheCut(pool: seq<Timed>, k: int, higher: bool, t: Timed)
    requires Ordered(pool, Ahead(higher)) && 0 < k <= |pool| && t in pool
    ensures var cut := pool[k - 1];
            var fits := Count(NoWorseThan(higher, cut), pool) <= k;
            && (Clear(pool, k, higher)(t) <==> Before(higher, t, cut) || (t.centi == cut.centi && fits))
            && (Contested(pool, k, higher)(t) <==> t.centi == cut.centi && !fits)
  {
    var cut := pool[k - 1];
    CutCounts(pool, k, higher);
    if Before(higher, t, cut) {
      CountMono(NoWorseThan(higher, t), BetterThan(higher, cut), pool);
    } else if t.centi == cut.centi {
      CountEq(NoWorseThan(higher, t), NoWorseThan(higher, cut), pool);
      CountEq(BetterThan(higher, t), BetterThan(higher, cut), pool);
    } else {
      CountMono(NoWorseThan(higher, cut), BetterThan(higher, t), pool);
      CountStrict(NoWorseThan(higher, cut), NoWorseThan(higher, t), pool, t);
    }
  }

  lemma {:induction false} BetterThenLevel(higher: bool, cut: Timed, pool: seq<Timed>)
    requires Ordered(pool, Ahead(higher))
    ensures Filter(NoWorseThan(higher, cut), pool)
            == Filter(BetterThan(higher, cut), pool) + Filter(LevelWith(cut), pool)
  {
    if pool != [] {
      var rest := pool[1..];
      NoWorseMeans(higher, cut, pool[0]);
      BetterThenLevel(higher, cut, rest);
      if !BetterThan(higher, cut)(pool[0]) {
        assert forall u <- rest :: !Before(higher, u, pool[0]);
        NoneBetter(higher, cut, rest);
        NoneBetter(higher, cut, pool);
        PrependNothing(Filter(LevelWith(cut), pool), Filter(LevelWith(cut), rest));
      } else {
        var first := [pool[0]];
        assert first + (Filter(BetterThan(higher, cut), rest) + Filter(LevelWith(cut), rest))
            == (first + Filter(BetterThan(higher, cut), rest)) + Filter(LevelWith(cut), rest);
      }
    }
  }

  lemma PrependNothing<T>(a: seq<T>, b: seq<T>)
    ensures [] + a == a && [] + b == b
  {}

  lemma {:induction false} NoneBetter(higher: bool, cut: Timed, pool: seq<Timed>)
    requires forall u <- pool :: !Before(higher, u, cut)
    ensures Filter(BetterThan(higher, cut), pool) == []
  {
    if pool != [] { NoneBetter(higher, cut, pool[1..]); }
  }

  // The places go to the rows ahead of the cut; its equals go through together or are tied.
  lemma Allocation(pool: seq<Timed>, k: int, higher: bool)
    requires Ordered(pool, Ahead(higher)) && 0 < k <= |pool|
    ensures var cut := pool[k - 1];
            var secured, level := Filter(BetterThan(higher, cut), pool), Filter(LevelWith(cut), pool);
            && level != [] && |secured| < k <= |secured| + |level|
            && Through(pool, k, higher) == (if |secured| + |level| <= k then secured + level else secured)
            && Tied(pool, k, higher) == (if |secured| + |level| <= k then [] else level)
  {
    var cut := pool[k - 1];
    var fits := Count(NoWorseThan(higher, cut), pool) <= k;
    CutCounts(pool, k, higher);
    CountSplit(higher, cut, pool);
    BetterThenLevel(higher, cut, pool);
    forall t | t in pool
      ensures Clear(pool, k, higher)(t) == (if fits then NoWorseThan(higher, cut) else BetterThan(higher, cut))(t)
      ensures Contested(pool, k, higher)(t) == (!fits && LevelWith(cut)(t))
    {
      AgainstTheCut(pool, k, higher, t);
    }
    FilterEq(Clear(pool, k, higher), if fits then NoWorseThan(higher, cut) else BetterThan(higher, cut), pool);
    if fits {
      FilterNone(Contested(pool, k, higher), pool);
    } else {
      FilterEq(Contested(pool, k, higher), LevelWith(cut), pool);
    }
  }

  lemma RoomForAll(pool: seq<Timed>, k: int, higher: bool)
    requires |pool| <= k
    ensures Through(pool, k, higher) == pool && TieAt(pool, k, higher) == None
  {
    forall t | t in pool ensures Clear(pool, k, higher)(t) && !Contested(pool, k, higher)(t) {
      CountMono(NoWorseThan(higher, t), NoWorseThan(higher, t), pool);
    }
    FilterAll(Clear(pool, k, higher), pool);
    FilterNone(Contested(pool, k, higher), pool);
  }

  lemma NoPlaces(pool: seq<Timed>, k: int, higher: bool)
    requires k <= 0
    ensures Through(pool, k, higher) == [] && TieAt(pool, k, higher) == None
  {
    forall t | t in pool ensures !Clear(pool, k, higher)(t) && !Contested(pool, k, higher)(t) {
      forall u | u in pool ensures BetterThan(higher, t)(u) ==> NoWorseThan(higher, t)(u) {
        NoWorseMeans(higher, t, u);
      }
      NoWorseMeans(higher, t, t);
      CountStrict(BetterThan(higher, t), NoWorseThan(higher, t), pool, t);
    }
    FilterNone(Clear(pool, k, higher), pool);
    FilterNone(Contested(pool, k, higher), pool);
  }

  // Fills k places from a pool sorted best first.
  method FillByMark(pool: seq<Timed>, k: int, higher: bool) returns (through: seq<Timed>, tie: Option<TimeTie>)
    requires Ordered(pool, Ahead(higher)) && k > 0
    ensures through == Through(pool, k, higher) && tie == TieAt(pool, k, higher)
  {
    if |pool| <= k {
      RoomForAll(pool, k, higher);
      return pool, None;
    }
    var secured, level := Partition(pool, pool[k - 1], higher);
    var remaining := k - |secured|;
    through, tie := secured, Surfaced(level, remaining);
    if |level| <= remaining {
      through, tie := secured + level, None;
    }
    Settle(pool, k, higher, secured, level);
  }

  lemma Settle(pool: seq<Timed>, k: int, higher: bool, secured: seq<Timed>, level: seq<Timed>)
    requires Ordered(pool, Ahead(higher)) && 0 < k <= |pool|
    requires secured == Filter(BetterThan(higher, pool[k - 1]), pool)
    requires level == Filter(LevelWith(pool[k - 1]), pool)
    ensures var remaining := k - |secured|;
            if |level| <= remaining then Through(pool, k, higher) == secured + level && TieAt(pool, k, higher) == None
            else Through(pool, k, higher) == secured && TieAt(pool, k, higher) == Surfaced(level, remaining)
  {
    Allocation(pool, k, higher);
  }

  method Partition(pool: seq<Timed>, cut: Timed, higher: bool) returns (secured: seq<Timed>, level: seq<Timed>)
    ensures secured == Filter(BetterThan(higher, cut), pool)
    ensures level == Filter(LevelWith(cut), pool)
  {
    secured, level := [], [];
    for i := 0 to |pool|
      invariant secured == Filter(BetterThan(higher, cut), pool[..i])
      invariant level == Filter(LevelWith(cut), pool[..i])
    {
      var t := pool[i];
      FilterNext(BetterThan(higher, cut), pool, i);
      FilterNext(LevelWith(cut), pool, i);
      if Before(higher, t, cut) {
        secured := secured + [t];
      } else if t.centi == cut.centi {
        level := level + [t];
      }
    }
    assert pool[..|pool|] == pool;
  }

  // --- What the allocation promises, whatever order the pool is in ---

  ghost predicate Conserved(n: nat, k: int, through: nat, tied: nat) {
    if tied == 0 then through == if n <= k then n else k
    else through < k < through + tied && k < n
  }

  // Places are conserved: those given plus the slots a surfaced tie leaves are min(k, pool);
  // a surfaced tie always has more members than slots, and at least one slot.
  lemma PlacesConserved(pool: seq<Timed>, k: int, higher: bool)
    requires k > 0
    ensures var through, tie := Through(pool, k, higher), TieAt(pool, k, higher);
            && |through| + (if tie.Some? then tie.value.slots else 0) == (if |pool| <= k then |pool| else k)
            && (tie.Some? ==> 0 < tie.value.slots < |tie.value.entries|)
  {
    var sorted := StableSort(pool, Ahead(higher));
    AheadIsWeakOrder(higher);
    SortPermutes(pool, Ahead(higher));
    SortOrders(pool, Ahead(higher));
    PoolOrderIrrelevant(pool, sorted, k, higher);
    SameSize(Through(pool, k, higher), Through(sorted, k, higher));
    SameSize(Tied(pool, k, higher), Tied(sorted, k, higher));
    ConservedWhenOrdered(sorted, k, higher);
  }

  lemma SameSize<T>(a: seq<T>, b: seq<T>)
    requires multiset(a) == multiset(b)
    ensures |a| == |b|
  {
    assert |multiset(a)| == |a| && |multiset(b)| == |b|;
  }

  lemma ConservedWhenOrdered(pool: seq<Timed>, k: int, higher: bool)
    requires k > 0 && Ordered(pool, Ahead(higher))
    ensures Conserved(|pool|, k, |Through(pool, k, higher)|, |Tied(pool, k, higher)|)
  {
    if |pool| <= k { RoomForAll(pool, k, higher); } else { Allocation(pool, k, higher); }
  }

  // Who goes through and who is tied does not depend on the order of the pool.
  lemma PoolOrderIrrelevant(a: seq<Timed>, b: seq<Timed>, k: int, higher: bool)
    requires multiset(a) == multiset(b)
    ensures multiset(Through(a, k, higher)) == multiset(Through(b, k, higher))
    ensures multiset(Tied(a, k, higher)) == multiset(Tied(b, k, higher))
  {
    forall t: Timed
      ensures Clear(a, k, higher)(t) == Clear(b, k, higher)(t)
      ensures Contested(a, k, higher)(t) == Contested(b, k, higher)(t)
    {
      CountPermutation(NoWorseThan(higher, t), a, b);
      CountPermutation(BetterThan(higher, t), a, b);
    }
    FilterEq(Clear(a, k, higher), Clear(b, k, higher), a);
    FilterPermutation(Clear(b, k, higher), a, b);
    FilterEq(Contested(a, k, higher), Contested(b, k, higher), a);
    FilterPermutation(Contested(b, k, higher), a, b);
  }

  // No inversion: whoever is left out, tied or not, is strictly worse than everyone through,
  // and whoever is neither is strictly worse than everyone tied.
  lemma NobodyPassedOver(pool: seq<Timed>, k: int, higher: bool, t: Timed, u: Timed)
    requires t in pool && t !in Through(pool, k, higher)
    ensures u in Through(pool, k, higher) ==> Before(higher, u, t)
    ensures t !in Tied(pool, k, higher) && u in Tied(pool, k, higher) ==> Before(higher, u, t)
  {
    if !Before(higher, u, t) {
      CountMono(NoWorseThan(higher, t), NoWorseThan(higher, u), pool);
      CountMono(BetterThan(higher, t), BetterThan(higher, u), pool);
    }
  }

  // --- Places in the heats ---

  function Placed(): HeatFinish -> bool { (f: HeatFinish) => f.status == Unset && f.place > 0 }

  function PlaceAhead(): (HeatFinish, HeatFinish) -> bool { (a: HeatFinish, b: HeatFinish) => a.place < b.place }

  function EntryOf(): HeatFinish -> string { (f: HeatFinish) => f.entry }

  function Finishers(heat: seq<HeatFinish>): seq<HeatFinish> {
    StableSort(Filter(Placed(), heat), PlaceAhead())
  }

  function Take<T>(s: seq<T>, n: int): seq<T> { if n <= 0 then [] else if |s| <= n then s else s[..n] }

  function Drop<T>(s: seq<T>, n: int): seq<T> { if n <= 0 then s else if |s| <= n then [] else s[n..] }

  lemma TakeDrop<T>(s: seq<T>, n: int)
    ensures Take(s, n) + Drop(s, n) == s
  {}

  // The first n finishers of a heat.
  function TopOf(heat: seq<HeatFinish>, n: int): seq<HeatFinish> { Take(Finishers(heat), n) }

  function TopPlacers(heats: seq<seq<HeatFinish>>, n: int): seq<HeatFinish> {
    if heats == [] then [] else TopPlacers(heats[..|heats| - 1], n) + TopOf(heats[|heats| - 1], n)
  }

  function Qualified(top: seq<HeatFinish>): set<string> { set f <- top :: f.entry }

  // Each heat sends min(n, finishers) through by place, and none of them behind a finisher
  // of that heat who is left out.
  lemma PlacesPerHeat(heat: seq<HeatFinish>, n: int)
    requires n >= 0
    ensures var leftOut := Drop(Finishers(heat), n);
            && |TopOf(heat, n)| == (if Count(Placed(), heat) <= n then Count(Placed(), heat) else n)
            && multiset(TopOf(heat, n)) + multiset(leftOut) == multiset(Filter(Placed(), heat))
            && forall f <- TopOf(heat, n), g <- leftOut :: f.place <= g.place
    ensures forall f :: f in Finishers(heat) <==> f in heat && f.status == Unset && f.place > 0
    ensures TopOf(heat, n) + Drop(Finishers(heat), n) == Finishers(heat)
  {
    SortMembers(Filter(Placed(), heat), PlaceAhead());
    TakeDrop(Finishers(heat), n);
    SortPermutes(Filter(Placed(), heat), PlaceAhead());
    SortOrders(Filter(Placed(), heat), PlaceAhead());
    CutOrdered(Finishers(heat), n);
  }

  lemma CutOrdered(s: seq<HeatFinish>, n: int)
    requires n >= 0 && Ordered(s, PlaceAhead())
    ensures |Take(s, n)| == (if |s| <= n then |s| else n)
    ensures multiset(Take(s, n)) + multiset(Drop(s, n)) == multiset(s)
    ensures forall f <- Take(s, n), g <- Drop(s, n) :: f.place <= g.place
  {
    TakeDrop(s, n);
    forall f, g | f in Take(s, n) && g in Drop(s, n) ensures f.place <= g.place {
      var i :| 0 <= i < |Take(s, n)| && Take(s, n)[i] == f;
      var j :| 0 <= j < |Drop(s, n)| && Drop(s, n)[j] == g;
      assert s[i] == f && s[|Take(s, n)| + j] == g && !PlaceAhead()(g, f);
    }
  }

  method TakeTop(heat: seq<HeatFinish>, n: int) returns (top: seq<HeatFinish>)
    requires n > 0
    ensures top == TopOf(heat, n)
  {
    var finishers: seq<HeatFinish> := [];
    for i := 0 to |heat|
      invariant finishers == Filter(Placed(), heat[..i])
    {
      FilterNext(Placed(), heat, i);
      if heat[i].status == Unset && heat[i].place > 0 {
        finishers := finishers + [heat[i]];
      }
    }
    assert heat[..|heat|] == heat;
    finishers := StableSort(finishers, PlaceAhead());
    top := [];
    var i := 0;
    while i < |finishers| && i < n
      invariant 0 <= i <= |finishers| && i <= n && top == finishers[..i]
    {
      top := top + [finishers[i]];
      i := i + 1;
    }
  }

  // --- The best of the rest by time ---

  // The timed row of a finish that is still in contention.
  function TimedRow(f: HeatFinish, qualified: set<string>): seq<Timed> {
    if f.entry in qualified || f.status != Unset || CentiMark(f.mark).Err? then []
    else [Timed(f.entry, f.mark, CentiMark(f.mark).value)]
  }

  function TimedOfHeat(heat: seq<HeatFinish>, qualified: set<string>): seq<Timed> {
    if heat == [] then [] else
    TimedOfHeat(heat[..|heat| - 1], qualified) + TimedRow(heat[|heat| - 1], qualified)
  }

  function TimedOf(heats: seq<seq<HeatFinish>>, qualified: set<string>): seq<Timed> {
    if heats == [] then [] else
    TimedOf(heats[..|heats| - 1], qualified) + TimedOfHeat(heats[|heats| - 1], qualified)
  }

  // The pool for the fastest places, best time first.
  function TimePool(heats: seq<seq<HeatFinish>>, topN: int): seq<Timed> {
    StableSort(TimedOf(heats, Qualified(TopPlacers(heats, topN))), Ahead(false))
  }

  method CollectHeat(heat: seq<HeatFinish>, qualified: set<string>) returns (rows: seq<Timed>)
    ensures rows == TimedOfHeat(heat, qualified)
  {
    rows := [];
    for i := 0 to |heat|
      invariant rows == TimedOfHeat(heat[..i], qualified)
    {
      assert heat[..i + 1][..i] == heat[..i];
      if heat[i].entry in qualified || heat[i].status != Unset {
        continue;
      }
      var centi := ParseCentiMark(heat[i].mark);
      if centi.Err? {
        continue;
      }
      rows := rows + [Timed(heat[i].entry, heat[i].mark, centi.value)];
    }
    assert heat[..|heat|] == heat;
  }

  method CollectPool(heats: seq<seq<HeatFinish>>, qualified: set<string>) returns (pool: seq<Timed>)
    ensures pool == TimedOf(heats, qualified)
  {
    pool := [];
    for h := 0 to |heats|
      invariant pool == TimedOf(heats[..h], qualified)
    {
      assert heats[..h + 1][..h] == heats[..h];
      var rows := CollectHeat(heats[h], qualified);
      pool := pool + rows;
    }
    assert heats[..|heats|] == heats;
  }

  function PlaceCode(): HeatFinish -> Advancement { (f: HeatFinish) => Advancement(f.entry, ByPlace) }

  method TakePlacers(heats: seq<seq<HeatFinish>>, topN: int)
    returns (advanced: seq<Advancement>, qualified: set<string>)
    ensures advanced == Map(PlaceCode(), TopPlacers(heats, topN))
    ensures qualified == Qualified(TopPlacers(heats, topN))
  {
    advanced, qualified := [], {};
    if topN <= 0 {
      NoTopPlacers(heats, topN);
      return;
    }
    for h := 0 to |heats|
      invariant advanced == Map(PlaceCode(), TopPlacers(heats[..h], topN))
      invariant qualified == Qualified(TopPlacers(heats[..h], topN))
    {
      assert heats[..h + 1][..h] == heats[..h];
      var top := TakeTop(heats[h], topN);
      MapAppend(PlaceCode(), TopPlacers(heats[..h], topN), top);
      advanced := advanced + Map(PlaceCode(), top);
      qualified := qualified + set f <- top :: f.entry;
    }
    assert heats[..|heats|] == heats;
  }

  method ComputeTrackAdvancement(heats: seq<seq<HeatFinish>>, rule: AdvancementRule)
    returns (advanced: seq<Advancement>, tie: Option<TimeTie>)
    ensures var pool := TimePool(heats, rule.topN);
            && advanced == Map(PlaceCode(), TopPlacers(heats, rule.topN))
                           + Map(WithCode(ByTime), Through(pool, rule.fastestK, false))
            && tie == TieAt(pool, rule.fastestK, false)
    ensures var pool := TimePool(heats, rule.topN);
            var through, tied := Through(pool, rule.fastestK, false), Tied(pool, rule.fastestK, false);
            && Announces(advanced, tie, Map(EntryOf(), TopPlacers(heats, rule.topN)), through, tied, rule.fastestK)
            && GoToTheBest(pool, through, tied, rule.fastestK, false)
  {
    var qualified, through;
    advanced, qualified := TakePlacers(heats, rule.topN);
    var rows := CollectPool(heats, qualified);
    var pool := StableSort(rows, Ahead(false));
    AheadIsWeakOrder(false);
    SortOrders(rows, Ahead(false));
    through, tie := FillIfPlaces(pool, rule.fastestK, false);
    advanced := advanced + Map(WithCode(ByTime), through);
    TrackMeaning(heats, rule);
  }

  lemma {:induction false} NoTopPlacers(heats: seq<seq<HeatFinish>>, n: int)
    requires n <= 0
    ensures TopPlacers(heats, n) == []
  {
    if heats != [] { NoTopPlacers(heats[..|heats| - 1], n); }
  }

  // --- The field version ---

  function FieldRow(f: FieldFinish): seq<Timed> {
    var centi := CentiMark(f.mark);
    if centi.Err? then [] else [Timed(f.entry, f.mark, centi.value)]
  }

  function Measured(entries: seq<FieldFinish>): seq<Timed> {
    if entries == [] then [] else Measured(entries[..|entries| - 1]) + FieldRow(entries[|entries| - 1])
  }

  // On standard: the standard is set, readable, and equalled or beaten.
  function OnStandard(standard: string, higher: bool): Timed -> bool {
    (t: Timed) => standard != "" && CentiMark(standard).Ok?
         && (if higher then t.centi >= CentiMark(standard).value else t.centi <= CentiMark(standard).value)
  }

  function Outside(ids: set<string>): Timed -> bool { (t: Timed) => t.id !in ids }

  function Ids(s: seq<Timed>): set<string> { set t <- s :: t.id }

  function FieldPool(entries: seq<FieldFinish>, higher: bool): seq<Timed> {
    StableSort(Measured(entries), Ahead(higher))
  }

  // Those on standard, and the pool left for the remaining capacity.
  function Standards(entries: seq<FieldFinish>, standard: string, higher: bool): seq<Timed> {
    Filter(OnStandard(standard, higher), FieldPool(entries, higher))
  }

  function Remainder(entries: seq<FieldFinish>, standard: string, higher: bool): seq<Timed> {
    Filter(Outside(Ids(Standards(entries, standard, higher))), FieldPool(entries, higher))
  }

  method CollectMeasured(entries: seq<FieldFinish>) returns (pool: seq<Timed>)
    ensures pool == Measured(entries)
  {
    pool := [];
    for i := 0 to |entries|
      invariant pool == Measured(entries[..i])
    {
      assert entries[..i + 1][..i] == entries[..i];
      var centi := ParseCentiMark(entries[i].mark);
      if centi.Ok? {
        pool := pool + [Timed(entries[i].entry, entries[i].mark, centi.value)];
      }
    }
    assert entries[..|entries|] == entries;
  }

  method TakeStandards(pool: seq<Timed>, standard: string, higher: bool)
    returns (standards: seq<Timed>, qualified: set<string>)
    ensures standards == Filter(OnStandard(standard, higher), pool)
    ensures qualified == Ids(standards)
  {
    standards, qualified := [], {};
    var std := ParseCentiMark(standard);
    if standard == "" || std.Err? {
      FilterNone(OnStandard(standard, higher), pool);
      return;
    }
    for i := 0 to |pool|
      invariant standards == Filter(OnStandard(standard, higher), pool[..i])
      invariant qualified == Ids(standards)
    {
      FilterNext(OnStandard(standard, higher), pool, i);
      var beats := if higher then pool[i].centi >= std.value else pool[i].centi <= std.value;
      if beats {
        standards := standards + [pool[i]];
        qualified := qualified + {pool[i].id};
      }
    }
    assert pool[..|pool|] == pool;
  }

  method DropQualified(pool: seq<Timed>, qualified: set<string>) returns (rest: seq<Timed>)
    ensures rest == Filter(Outside(qualified), pool)
  {
    rest := [];
    for i := 0 to |pool|
      invariant rest == Filter(Outside(qualified), pool[..i])
    {
      FilterNext(Outside(qualified), pool, i);
      if pool[i].id !in qualified {
        rest := rest + [pool[i]];
      }
    }
    assert pool[..|pool|] == pool;
  }

  method ComputeFieldAdvancement(entries: seq<FieldFinish>, standard: string, better: string, capacity: int)
    returns (advanced: seq<Advancement>, tie: Option<TimeTie>)
    ensures var higher := better == "higher";
            && advanced == FieldAdvanced(entries, standard, higher, capacity)
            && tie == TieAt(Remainder(entries, standard, higher), Capacity(entries, standard, higher, capacity), higher)
    ensures var higher := better == "higher";
            var rest, k := Remainder(entries, standard, higher), Capacity(entries, standard, higher, capacity);
            var through, tied := Through(rest, k, higher), Tied(rest, k, higher);
            && Announces(advanced, tie, Map(IdOf(), Standards(entries, standard, higher)), through, tied, k)
            && GoToTheBest(rest, through, tied, k, higher)
  {
    var higher := better == "higher";
    var standards, rest, left := SplitByStandard(entries, standard, higher, capacity);
    var through;
    through, tie := FillIfPlaces(rest, left, higher);
    advanced := Map(WithCode(ByPlace), standards) + Map(WithCode(ByTime), through);
    FieldMeaning(entries, standard, higher, capacity);
  }

  // The places left once those on standard have theirs.
  function Capacity(entries: seq<FieldFinish>, standard: string, higher: bool, capacity: int): int {
    capacity - |Ids(Standards(entries, standard, higher))|
  }

  function FieldAdvanced(entries: seq<FieldFinish>, standard: string, higher: bool, capacity: int): seq<Advancement> {
    var k := Capacity(entries, standard, higher, capacity);
    Map(WithCode(ByPlace), Standards(entries, standard, higher))
    + Map(WithCode(ByTime), Through(Remainder(entries, standard, higher), k, higher))
  }

  method RankField(entries: seq<FieldFinish>, higher: bool) returns (pool: seq<Timed>)
    ensures pool == FieldPool(entries, higher) && Ordered(pool, Ahead(higher))
  {
    var measured := CollectMeasured(entries);
    pool := StableSort(measured, Ahead(higher));
    AheadIsWeakOrder(higher);
    SortOrders(measured, Ahead(higher));
  }

  method SplitByStandard(entries: seq<FieldFinish>, standard: string, higher: bool, capacity: int)
    returns (standards: seq<Timed>, rest: seq<Timed>, left: int)
    ensures standards == Standards(entries, standard, higher)
    ensures rest == Remainder(entries, standard, higher) && Ordered(rest, Ahead(higher))
    ensures left == Capacity(entries, standard, higher, capacity)
  {
    var pool := RankField(entries, higher);
    var qualified;
    standards, qualified := TakeStandards(pool, standard, higher);
    rest := DropQualified(pool, qualified);
    left := capacity - |qualified|;
    FilterOrdered(Outside(qualified), pool, higher);
  }

  method FillIfPlaces(pool: seq<Timed>, k: int, higher: bool) returns (through: seq<Timed>, tie: Option<TimeTie>)
    requires Ordered(pool, Ahead(higher))
    ensures through == Through(pool, k, higher) && tie == TieAt(pool, k, higher)
  {
    if k <= 0 {
      NoPlaces(pool, k, higher);
      return [], None;
    }
    through, tie := FillByMark(pool, k, higher);
  }

  lemma {:induction false} FilterOrdered(p: Timed -> bool, s: seq<Timed>, higher: bool)
    requires Ordered(s, Ahead(higher))
    ensures Ordered(Filter(p, s), Ahead(higher))
  {
    if s != [] {
      FilterOrdered(p, s[1..], higher);
      forall t | t in Filter(p, s[1..]) ensures !Before(higher, t, s[0]) {
        var j :| 0 < j < |s| && s[j] == t;
      }
    }
  }

  // --- What is announced, in marks ---

  // The mark of t beats the mark of u.
  ghost predicate BetterMark(higher: bool, t: Timed, u: Timed) {
    && CentiMark(t.mark).Ok? && CentiMark(u.mark).Ok?
    && if higher then CentiMark(t.mark).value > CentiMark(u.mark).value
       else CentiMark(t.mark).value < CentiMark(u.mark).value
  }

  // The k places go to the best of the pool, best first: everyone through beats everyone else, those
  // tied have one mark and beat everyone in neither group, and only for want of places is anyone
  // left out or tied.
  ghost predicate GoToTheBest(pool: seq<Timed>, through: seq<Timed>, tied: seq<Timed>, k: int, higher: bool) {
    && (forall t <- through :: t in pool && t !in tied) && (forall t <- tied :: t in pool)
    && (forall t, u :: t in through && u in pool && u !in through ==> BetterMark(higher, t, u))
    && (forall t, u :: t in tied && u in tied ==> CentiMark(t.mark).Ok? && CentiMark(t.mark) == CentiMark(u.mark))
    && (forall t, u :: t in tied && u in pool && u !in through && u !in tied ==> BetterMark(higher, t, u))
    && (forall i, j :: 0 <= i < j < |through| ==> !BetterMark(higher, through[j], through[i]))
    && (k <= 0 ==> through == [] && tied == [])
    && (k > 0 && tied == [] ==> |through| == if |pool| <= k then |pool| else k)
    && (k > 0 && tied != [] ==> |through| < k < |through| + |tied|)
  }

  // Those placed with Q, then those through with q; a tie with its entries and the slots left.
  ghost predicate Announces(advanced: seq<Advancement>, tie: Option<TimeTie>, placed: seq<string>,
                            through: seq<Timed>, tied: seq<Timed>, k: int)
  {
    && |advanced| == |placed| + |through|
    && (forall i :: 0 <= i < |placed| ==> advanced[i] == Advancement(placed[i], ByPlace))
    && (forall i :: 0 <= i < |through| ==> advanced[|placed| + i] == Advancement(through[i].id, ByTime))
    && (tie.None? <==> tied == [])
    && (tie.Some? ==>
          && tie.value.mark == tied[0].mark && tie.value.slots == k - |through| && |tie.value.entries| == |tied|
          && forall i :: 0 <= i < |tied| ==> tie.value.entries[i] == tied[i].id)
  }

  ghost predicate Reads(pool: seq<Timed>) { forall t <- pool :: CentiMark(t.mark) == Ok(t.centi) }

  lemma FillMeaning(pool: seq<Timed>, k: int, higher: bool)
    requires Reads(pool) && Ordered(pool, Ahead(higher))
    ensures GoToTheBest(pool, Through(pool, k, higher), Tied(pool, k, higher), k, higher)
  {
    var through, tied := Through(pool, k, higher), Tied(pool, k, higher);
    ThroughBeats(pool, k, higher);
    TiedLevel(pool, k, higher);
    FilterOrdered(Clear(pool, k, higher), pool, higher);
    forall i, j | 0 <= i < j < |through| ensures !BetterMark(higher, through[j], through[i]) {
      assert through[i] in pool && through[j] in pool;
      assert !Ahead(higher)(through[j], through[i]);
    }
    if k <= 0 {
      NoPlaces(pool, k, higher);
    } else {
      ConservedWhenOrdered(pool, k, higher);
    }
  }

  lemma ThroughBeats(pool: seq<Timed>, k: int, higher: bool)
    requires Reads(pool)
    ensures var through, tied := Through(pool, k, higher), Tied(pool, k, higher);
            && (forall t <- through :: t in pool && t !in tied) && (forall t <- tied :: t in pool)
            && (forall t, u :: t in through && u in pool && u !in through ==> BetterMark(higher, t, u))
            && (forall t, u :: t in tied && u in pool && u !in through && u !in tied ==> BetterMark(higher, t, u))
  {
    var through, tied := Through(pool, k, higher), Tied(pool, k, higher);
    forall t, u | t in through && u in pool && u !in through ensures BetterMark(higher, t, u) {
      NobodyPassedOver(pool, k, higher, u, t);
    }
    forall t, u | t in tied && u in pool && u !in through && u !in tied ensures BetterMark(higher, t, u) {
      NobodyPassedOver(pool, k, higher, u, t);
    }
  }

  lemma TiedLevel(pool: seq<Timed>, k: int, higher: bool)
    requires Reads(pool)
    ensures forall t, u :: t in Tied(pool, k, higher) && u in Tied(pool, k, higher) ==>
              CentiMark(t.mark).Ok? && CentiMark(t.mark) == CentiMark(u.mark)
  {
    forall t, u | t in Tied(pool, k, higher) && u in Tied(pool, k, higher) ensures t.centi == u.centi {
      if Before(higher, t, u) {
        CountMono(NoWorseThan(higher, t), BetterThan(higher, u), pool);
      } else if Before(higher, u, t) {
        CountMono(NoWorseThan(higher, u), BetterThan(higher, t), pool);
      }
    }
  }

  lemma AnnouncedAsSaid(placed: seq<string>, through: seq<Timed>, tied: seq<Timed>, k: int, advanced: seq<Advancement>)
    requires |advanced| == |placed| + |through|
    requires forall i :: 0 <= i < |placed| ==> advanced[i] == Advancement(placed[i], ByPlace)
    requires forall i :: 0 <= i < |through| ==> advanced[|placed| + i] == Advancement(through[i].id, ByTime)
    ensures Announces(advanced, Surfaced(tied, k - |through|), placed, through, tied, k)
  {}

  // --- The pools ---

  // A row for this entry, with its mark as it reads.
  ghost predicate RowFor(t: Timed, entry: string, mark: string) {
    t.id == entry && t.mark == mark && CentiMark(mark) == Ok(t.centi)
  }

  lemma {:induction false} HeatMembers(heat: seq<HeatFinish>, qualified: set<string>)
    ensures forall t :: t in TimedOfHeat(heat, qualified)
              <==> exists f <- heat :: f.status == Unset && f.entry !in qualified && RowFor(t, f.entry, f.mark)
  {
    if heat != [] {
      HeatMembers(heat[..|heat| - 1], qualified);
      assert heat == heat[..|heat| - 1] + [heat[|heat| - 1]];
    }
  }

  ghost predicate InSome(heats: seq<seq<HeatFinish>>, qualified: set<string>, t: Timed) {
    exists heat <- heats :: t in TimedOfHeat(heat, qualified)
  }

  lemma InSomeLast(heats: seq<seq<HeatFinish>>, last: seq<HeatFinish>, qualified: set<string>, t: Timed)
    ensures InSome(heats + [last], qualified, t) <==> InSome(heats, qualified, t) || t in TimedOfHeat(last, qualified)
  {
    var all := heats + [last];
    if t in TimedOfHeat(last, qualified) {
      assert all[|heats|] == last && last in all;
    } else if InSome(heats, qualified, t) {
      var heat :| heat in heats && t in TimedOfHeat(heat, qualified);
      assert heat in all;
    }
  }

  lemma {:induction false} HeatsMembers(heats: seq<seq<HeatFinish>>, qualified: set<string>, t: Timed)
    ensures t in TimedOf(heats, qualified) <==> InSome(heats, qualified, t)
  {
    if heats != [] {
      var init, last := heats[..|heats| - 1], heats[|heats| - 1];
      HeatsMembers(init, qualified, t);
      InSomeLast(init, last, qualified, t);
      assert heats == init + [last];
      assert TimedOf(heats, qualified) == TimedOf(init, qualified) + TimedOfHeat(last, qualified);
    }
  }

  lemma {:induction false} PlacersMembers(heats: seq<seq<HeatFinish>>, n: int)
    ensures forall f :: f in TopPlacers(heats, n) <==> exists heat <- heats :: f in TopOf(heat, n)
  {
    if heats != [] {
      PlacersMembers(heats[..|heats| - 1], n);
      assert heats == heats[..|heats| - 1] + [heats[|heats| - 1]];
    }
  }

  // The time pool: whoever finished some heat without a status, with a readable time, and is not
  // through by place in any.
  lemma TimePoolMeaning(heats: seq<seq<HeatFinish>>, n: int, t: Timed)
    ensures t in TimePool(heats, n)
            <==> exists heat <- heats, f <- heat ::
                   f.status == Unset && RowFor(t, f.entry, f.mark)
                   && !exists other <- heats, g <- TopOf(other, n) :: g.entry == f.entry
  {
    var qualified := Qualified(TopPlacers(heats, n));
    var rows := TimedOf(heats, qualified);
    SortMembers(rows, Ahead(false));
    HeatsMembers(heats, qualified, t);
    PlacersMembers(heats, n);
    forall heat <- heats
      ensures t in TimedOfHeat(heat, qualified)
              <==> exists f <- heat :: f.status == Unset && f.entry !in qualified && RowFor(t, f.entry, f.mark)
    {
      HeatMembers(heat, qualified);
    }
    QualifiedFrom(heats, n, t.id);
  }

  lemma TimePoolReads(heats: seq<seq<HeatFinish>>, n: int)
    ensures Reads(TimePool(heats, n))
  {
    forall t <- TimePool(heats, n) ensures CentiMark(t.mark) == Ok(t.centi) { TimePoolMeaning(heats, n, t); }
  }

  lemma QualifiedFrom(heats: seq<seq<HeatFinish>>, n: int, id: string)
    ensures id in Qualified(TopPlacers(heats, n)) <==> exists other <- heats, g <- TopOf(other, n) :: g.entry == id
  {
    PlacersMembers(heats, n);
  }

  lemma {:induction false} MeasuredMembers(entries: seq<FieldFinish>)
    ensures forall t :: t in Measured(entries) <==> exists f <- entries :: RowFor(t, f.entry, f.mark)
  {
    if entries != [] {
      MeasuredMembers(entries[..|entries| - 1]);
      assert entries == entries[..|entries| - 1] + [entries[|entries| - 1]];
    }
  }

  // The standard is set and readable, and the row's mark equals or beats it.
  ghost predicate Reaches(t: Timed, standard: string, higher: bool) {
    && standard != "" && CentiMark(standard).Ok? && CentiMark(t.mark).Ok?
    && if higher then CentiMark(t.mark).value >= CentiMark(standard).value
       else CentiMark(t.mark).value <= CentiMark(standard).value
  }

  lemma MeasuredMeaning(entries: seq<FieldFinish>, higher: bool, t: Timed)
    ensures t in FieldPool(entries, higher) <==> exists f <- entries :: RowFor(t, f.entry, f.mark)
  {
    MeasuredMembers(entries);
    SortMembers(Measured(entries), Ahead(higher));
  }

  // On standard: every measured entry that reaches it. The rest compete for what capacity is left:
  // one place less for each entry on standard.
  lemma FieldPoolMeaning(entries: seq<FieldFinish>, standard: string, higher: bool, t: Timed)
    ensures t in Standards(entries, standard, higher)
            <==> Reaches(t, standard, higher) && exists f <- entries :: RowFor(t, f.entry, f.mark)
    ensures t in Remainder(entries, standard, higher)
            <==> (exists f <- entries :: RowFor(t, f.entry, f.mark))
                 && !exists u <- Standards(entries, standard, higher) :: u.id == t.id
  {
    var standards := Standards(entries, standard, higher);
    MeasuredMeaning(entries, higher, t);
    assert t.id in Ids(standards) <==> exists u <- standards :: u.id == t.id;
  }

  lemma RemainderReads(entries: seq<FieldFinish>, standard: string, higher: bool)
    ensures Reads(Remainder(entries, standard, higher))
  {
    forall t <- Remainder(entries, standard, higher) ensures CentiMark(t.mark) == Ok(t.centi) {
      MeasuredMeaning(entries, higher, t);
    }
  }

  lemma AnnouncedWith(placed: seq<string>, coded: seq<Advancement>, pool: seq<Timed>, k: int, higher: bool)
    requires |coded| == |placed| && forall i :: 0 <= i < |placed| ==> coded[i] == Advancement(placed[i], ByPlace)
    ensures var through := Through(pool, k, higher);
            Announces(coded + Map(WithCode(ByTime), through), TieAt(pool, k, higher), placed, through, Tied(pool, k, higher), k)
  {
    var through := Through(pool, k, higher);
    AnnouncedAsSaid(placed, through, Tied(pool, k, higher), k, coded + Map(WithCode(ByTime), through));
  }

  lemma TrackMeaning(heats: seq<seq<HeatFinish>>, rule: AdvancementRule)
    ensures var pool := TimePool(heats, rule.topN);
            var through, tied := Through(pool, rule.fastestK, false), Tied(pool, rule.fastestK, false);
            var placers := TopPlacers(heats, rule.topN);
            && Announces(Map(PlaceCode(), placers) + Map(WithCode(ByTime), through), TieAt(pool, rule.fastestK, false),
                         Map(EntryOf(), placers), through, tied, rule.fastestK)
            && GoToTheBest(pool, through, tied, rule.fastestK, false)
  {
    var pool, placers := TimePool(heats, rule.topN), TopPlacers(heats, rule.topN);
    TimePoolOrdered(heats, rule.topN);
    TimePoolReads(heats, rule.topN);
    FillMeaning(pool, rule.fastestK, false);
    AnnouncedWith(Map(EntryOf(), placers), Map(PlaceCode(), placers), pool, rule.fastestK, false);
  }

  lemma TimePoolOrdered(heats: seq<seq<HeatFinish>>, n: int)
    ensures Ordered(TimePool(heats, n), Ahead(false))
  {
    AheadIsWeakOrder(false);
    SortOrders(TimedOf(heats, Qualified(TopPlacers(heats, n))), Ahead(false));
  }

  lemma RemainderOrdered(entries: seq<FieldFinish>, standard: string, higher: bool)
    ensures Ordered(Remainder(entries, standard, higher), Ahead(higher))
  {
    AheadIsWeakOrder(higher);
    SortOrders(Measured(entries), Ahead(higher));
    FilterOrdered(Outside(Ids(Standards(entries, standard, higher))), FieldPool(entries, higher), higher);
  }

  lemma FieldMeaning(entries: seq<FieldFinish>, standard: string, higher: bool, capacity: int)
    ensures var rest, k := Remainder(entries, standard, higher), Capacity(entries, standard, higher, capacity);
            var through, tied := Through(rest, k, higher), Tied(rest, k, higher);
            && Announces(FieldAdvanced(entries, standard, higher, capacity), TieAt(rest, k, higher),
                         Map(IdOf(), Standards(entries, standard, higher)), through, tied, k)
            && GoToTheBest(rest, through, tied, k, higher)
  {
    var rest, k := Remainder(entries, standard, higher), Capacity(entries, standard, higher, capacity);
    var standards := Standards(entries, standard, higher);
    RemainderOrdered(entries, standard, higher);
    RemainderReads(entries, standard, higher);
    FillMeaning(rest, k, higher);
    AnnouncedWith(Map(IdOf(), standards), Map(WithCode(ByPlace), standards), rest, k, higher);
  }

  // --- Nobody advances twice ---

  lemma RowComesFromFinish(f: HeatFinish, qualified: set<string>, id: string)
    ensures multiset(Map(IdOf(), TimedRow(f, qualified)))[id]
            <= if id in qualified then 0 else multiset(Map(EntryOf(), [f]))[id]
  {
    assert Map(EntryOf(), [f]) == [f.entry];
    if TimedRow(f, qualified) != [] {
      assert Map(IdOf(), TimedRow(f, qualified)) == [f.entry];
    } else {
      assert Map(IdOf(), TimedRow(f, qualified)) == [];
    }
  }

  lemma {:induction false} RowsComeFromHeat(heat: seq<HeatFinish>, qualified: set<string>, id: string)
    ensures multiset(Map(IdOf(), TimedOfHeat(heat, qualified)))[id]
            <= if id in qualified then 0 else multiset(Map(EntryOf(), heat))[id]
  {
    if heat != [] {
      var n := |heat| - 1;
      RowsComeFromHeat(heat[..n], qualified, id);
      RowComesFromFinish(heat[n], qualified, id);
      AppendCount(IdOf(), TimedOfHeat(heat[..n], qualified), TimedRow(heat[n], qualified), id);
      LastCount(EntryOf(), heat, id);
    }
  }

  lemma LastCount<A, B>(f: A -> B, s: seq<A>, y: B)
    requires s != []
    ensures multiset(Map(f, s))[y] == multiset(Map(f, s[..|s| - 1]))[y] + multiset(Map(f, [s[|s| - 1]]))[y]
  {
    MapLast(f, s);
    assert Map(f, [s[|s| - 1]]) == [f(s[|s| - 1])];
  }

  lemma AppendCount<A, B>(f: A -> B, a: seq<A>, b: seq<A>, y: B)
    ensures multiset(Map(f, a + b))[y] == multiset(Map(f, a))[y] + multiset(Map(f, b))[y]
  {
    MapAppend(f, a, b);
  }

  lemma {:induction false} MapAppend<A, B>(f: A -> B, a: seq<A>, b: seq<A>)
    ensures Map(f, a + b) == Map(f, a) + Map(f, b)
  {
  }

  function Entered(heats: seq<seq<HeatFinish>>): seq<string> {
    if heats == [] then [] else Entered(heats[..|heats| - 1]) + Map(EntryOf(), heats[|heats| - 1])
  }

  lemma {:induction false} RowsComeFromHeats(heats: seq<seq<HeatFinish>>, qualified: set<string>, id: string)
    ensures multiset(Map(IdOf(), TimedOf(heats, qualified)))[id]
            <= if id in qualified then 0 else multiset(Entered(heats))[id]
  {
    if heats != [] {
      var n := |heats| - 1;
      RowsComeFromHeats(heats[..n], qualified, id);
      RowsComeFromHeat(heats[n], qualified, id);
      MapAppend(IdOf(), TimedOf(heats[..n], qualified), TimedOfHeat(heats[n], qualified));
    }
  }

  lemma {:induction false} FilterMapped<A(!new), B>(p: A -> bool, f: A -> B, s: seq<A>, y: B)
    ensures multiset(Map(f, Filter(p, s)))[y] <= multiset(Map(f, s))[y]
  {
    if s != [] {
      FilterMapped(p, f, s[1..], y);
      MapAppend(f, if p(s[0]) then [s[0]] else [], Filter(p, s[1..]));
      assert Map(f, s) == [f(s[0])] + Map(f, s[1..]);
    }
  }

  lemma TopComeFromHeat(heat: seq<HeatFinish>, n: int, id: string)
    ensures multiset(Map(EntryOf(), TopOf(heat, n)))[id] <= multiset(Map(EntryOf(), heat))[id]
  {
    var all := Finishers(heat);
    SortPermutes(Filter(Placed(), heat), PlaceAhead());
    MapPermutation(EntryOf(), all, Filter(Placed(), heat));
    FilterMapped(Placed(), EntryOf(), heat, id);
    TakeDrop(all, n);
    MapAppend(EntryOf(), Take(all, n), Drop(all, n));
  }

  lemma {:induction false} TopComeFromHeats(heats: seq<seq<HeatFinish>>, n: int, id: string)
    ensures multiset(Map(EntryOf(), TopPlacers(heats, n)))[id] <= multiset(Entered(heats))[id]
  {
    if heats != [] {
      var m := |heats| - 1;
      TopComeFromHeats(heats[..m], n, id);
      TopComeFromHeat(heats[m], n, id);
      MapAppend(EntryOf(), TopPlacers(heats[..m], n), TopOf(heats[m], n));
    }
  }

  // An entry advances at most as often as it was entered in the heats: never both by place
  // and by time, and never twice when entries are distinct.
  lemma NobodyAdvancesTwice(heats: seq<seq<HeatFinish>>, rule: AdvancementRule, id: string)
    ensures var top, through := TopPlacers(heats, rule.topN),
                                Through(TimePool(heats, rule.topN), rule.fastestK, false);
            && (id in Map(EntryOf(), top) ==> id !in Map(IdOf(), through))
            && multiset(Map(EntryOf(), top))[id] + multiset(Map(IdOf(), through))[id] <= multiset(Entered(heats))[id]
  {
    var top, pool := TopPlacers(heats, rule.topN), TimePool(heats, rule.topN);
    TopComeFromHeats(heats, rule.topN, id);
    ThroughComeFromHeats(heats, Qualified(top), rule.fastestK, id);
    QualifiedIds(top, id);
    assert id in Map(IdOf(), Through(pool, rule.fastestK, false))
      <==> id in multiset(Map(IdOf(), Through(pool, rule.fastestK, false)));
    assert id in Map(EntryOf(), top) <==> id in multiset(Map(EntryOf(), top));
  }

  lemma QualifiedIds(top: seq<HeatFinish>, id: string)
    ensures id in Qualified(top) <==> id in Map(EntryOf(), top)
  {
    if id in Qualified(top) {
      var i :| 0 <= i < |top| && top[i].entry == id;
      assert Map(EntryOf(), top)[i] == id;
    }
  }

  lemma ThroughComeFromHeats(heats: seq<seq<HeatFinish>>, qualified: set<string>, k: int, id: string)
    ensures var pool := StableSort(TimedOf(heats, qualified), Ahead(false));
            multiset(Map(IdOf(), Through(pool, k, false)))[id]
            <= if id in qualified then 0 else multiset(Entered(heats))[id]
  {
    var rows := TimedOf(heats, qualified);
    var pool := StableSort(rows, Ahead(false));
    RowsComeFromHeats(heats, qualified, id);
    FilterMapped(Clear(pool, k, false), IdOf(), pool, id);
    SortPermutes(rows, Ahead(false));
    MapPermutation(IdOf(), pool, rows);
  }

  function FieldEntry(): FieldFinish -> string { (f: FieldFinish) => f.entry }

  lemma {:induction false} RowsComeFromEntries(entries: seq<FieldFinish>, id: string)
    ensures multiset(Map(IdOf(), Measured(entries)))[id] <= multiset(Map(FieldEntry(), entries))[id]
  {
    if entries != [] {
      var n := |entries| - 1;
      RowsComeFromEntries(entries[..n], id);
      RowComesFromEntry(entries[n], id);
      AppendCount(IdOf(), Measured(entries[..n]), FieldRow(entries[n]), id);
      LastCount(FieldEntry(), entries, id);
    }
  }

  lemma RowComesFromEntry(f: FieldFinish, id: string)
    ensures multiset(Map(IdOf(), FieldRow(f)))[id] <= multiset(Map(FieldEntry(), [f]))[id]
  {
    assert Map(FieldEntry(), [f]) == [f.entry];
    if FieldRow(f) != [] {
      assert Map(IdOf(), FieldRow(f)) == [f.entry];
    } else {
      assert Map(IdOf(), FieldRow(f)) == [];
    }
  }

  // The same for a field event: on standard or by performance, never both.
  lemma NobodyAdvancesTwiceInField(entries: seq<FieldFinish>, standard: string, higher: bool, k: int, id: string)
    ensures var standards, through := Standards(entries, standard, higher),
                                      Through(Remainder(entries, standard, higher), k, higher);
            && (id in Ids(standards) ==> id !in Ids(through))
            && multiset(Map(IdOf(), standards))[id] + multiset(Map(IdOf(), through))[id]
               <= multiset(Map(FieldEntry(), entries))[id]
  {
    var pool, measured := FieldPool(entries, higher), Measured(entries);
    var standards, rest := Standards(entries, standard, higher), Remainder(entries, standard, higher);
    RowsComeFromEntries(entries, id);
    SortPermutes(measured, Ahead(higher));
    MapPermutation(IdOf(), pool, measured);
    FilterMapped(OnStandard(standard, higher), IdOf(), pool, id);
    FilterMapped(Outside(Ids(standards)), IdOf(), pool, id);
    FilterMapped(Clear(rest, k, higher), IdOf(), rest, id);
    IdsMapped(standards, id);
    IdsMapped(rest, id);
    assert id in Ids(standards) ==> id !in Ids(rest);
  }

  lemma IdsMapped(rows: seq<Timed>, id: string)
    ensures multiset(Map(IdOf(), rows))[id] > 0 <==> id in Ids(rows)
  {
    assert multiset(Map(IdOf(), rows))[id] > 0 <==> id in Map(IdOf(), rows);
    if id in Ids(rows) {
      var i :| 0 <= i < |rows| && rows[i].id == id;
      assert Map(IdOf(), rows)[i] == id;
    }
  }
}
