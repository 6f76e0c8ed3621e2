// Heats for a round: ranking the field, choosing how many heats, dealing the ranks out in
// serpentine order and exchanging neighbours to keep clubs apart
// (internal/domain/heatseeding.go).
module HeatSeeding {
  import opened Basics
  import opened Marks
  import opened Sorting

  datatype SeedCandidate = SeedCandidate(entry: string, club: string, mark: string)

  // --- Ranking the field ---

  // Parsable seed marks come first, the lower time ahead; the others keep their given order.
  predicate SeededAhead(a: SeedCandidate, b: SeedCandidate) {
    var x, y := CentiMark(a.mark), CentiMark(b.mark);
    x.Ok? && (y.Err? || x.value < y.value)
  }

  function RankCandidates(candidates: seq<SeedCandidate>): seq<SeedCandidate> {
    StableSort(candidates, SeededAhead)
  }

  predicate Unseeded(c: SeedCandidate) { CentiMark(c.mark).Err? }

  // Nobody is dropped, times never fall down the ranking, every unseeded candidate follows
  // every seeded one, and the unseeded keep the order they were given in.
  lemma RankingMeaning(candidates: seq<SeedCandidate>)
    ensures var r := RankCandidates(candidates);
            && multiset(r) == multiset(candidates)
            && (forall i, j :: 0 <= i < j < |r| && CentiMark(r[j].mark).Ok? ==>
                  CentiMark(r[i].mark).Ok? && CentiMark(r[i].mark).value <= CentiMark(r[j].mark).value)
            && Filter(Unseeded, r) == Filter(Unseeded, candidates)
  {
    var r := RankCandidates(candidates);
    SortPermutes(candidates, SeededAhead);
    SortOrders(candidates, SeededAhead);
    SortStable(candidates, SeededAhead, Unseeded);
    forall i, j | 0 <= i < j < |r| ensures !SeededAhead(r[j], r[i]) {}
  }

  // Those with the same time keep the order they were given in, too.
  lemma EqualTimesKeepOrder(candidates: seq<SeedCandidate>, time: nat)
    ensures Filter(HasTime(time), RankCandidates(candidates)) == Filter(HasTime(time), candidates)
  {
    SortStable(candidates, SeededAhead, HasTime(time));
  }

  function HasTime(time: nat): SeedCandidate -> bool { (c: SeedCandidate) => CentiMark(c.mark) == Ok(time) }

  // --- How many heats ---

  datatype SeedError = NoCandidates | NoHeatSize | NoHeats

  function ChooseHeatCount(n: int, maxHeatSize: int): Result<nat, SeedError> {
    if n <= 0 then Err(NoCandidates)
    else if maxHeatSize <= 0 then Err(NoHeatSize)
    else Ok((n + maxHeatSize - 1) / maxHeatSize)
  }

  // The least number of heats that holds everyone.
  lemma LeastSufficientCount(n: int, maxHeatSize: int)
    requires n > 0 && maxHeatSize > 0
    ensures ChooseHeatCount(n, maxHeatSize).Ok?
    ensures var h := ChooseHeatCount(n, maxHeatSize).value;
            h > 0 && forall k: nat :: k * maxHeatSize >= n <==> k >= h
  {
    var h := ChooseHeatCount(n, maxHeatSize).value;
    var r := (n + maxHeatSize - 1) % maxHeatSize;
    assert h * maxHeatSize + r == n + maxHeatSize - 1;
    assert h * maxHeatSize >= n;
    assert h != 0;
    forall k: nat ensures k * maxHeatSize >= n <==> k >= h {
      if k >= h {
        Scale(h, k, maxHeatSize);
      } else {
        Scale(k, h - 1, maxHeatSize);
        assert (h - 1) * maxHeatSize == h * maxHeatSize - maxHeatSize;
      }
    }
  }

  lemma Scale(a: int, b: int, c: int)
    requires a <= b && c >= 0
    ensures a * c <= b * c
  {
    assert (b - a) * c >= 0;
    assert (b - a) * c == b * c - a * c;
  }

  // --- Serpentine order ---

  function Serpentine(i: nat, h: nat): (heat: nat)
    requires h > 0
    ensures heat < h
  {
    if (i / h) % 2 == 0 then i % h else h - 1 - i % h
  }

  ghost function SerpentineAll(n: nat, h: nat): (heatOf: seq<nat>)
    requires h > 0
    ensures |heatOf| == n && forall i :: 0 <= i < n ==> heatOf[i] == Serpentine(i, h)
  {
    seq(n, i requires 0 <= i => Serpentine(i, h))
  }

  // --- Keeping clubs apart ---

  // Someone else of the same club is already in that heat.
  ghost predicate Collides(ranked: seq<SeedCandidate>, heatOf: seq<nat>, idx: nat, heat: nat)
    requires idx < |ranked| == |heatOf|
  {
    ranked[idx].club != "" &&
    exists j :: 0 <= j < |heatOf| && j != idx && heatOf[j] == heat && ranked[j].club == ranked[idx].club
  }

  // Ranks i and i + 1 are clubmates in one heat.
  ghost predicate Clash(ranked: seq<SeedCandidate>, heatOf: seq<nat>, i: nat)
    requires i + 1 < |ranked| == |heatOf|
  {
    heatOf[i] == heatOf[i + 1] && ranked[i].club != "" && ranked[i].club == ranked[i + 1].club
  }

  ghost function Swapped(heatOf: seq<nat>, i: nat): seq<nat>
    requires i + 2 < |heatOf|
  {
    heatOf[i + 1 := heatOf[i + 2]][i + 2 := heatOf[i + 1]]
  }

  ghost predicate Exchanges(ranked: seq<SeedCandidate>, heatOf: seq<nat>, i: nat)
    requires i + 1 < |ranked| == |heatOf|
  {
    && Clash(ranked, heatOf, i)
    && i + 2 < |ranked|
    && heatOf[i + 2] != heatOf[i + 1]
    && !Collides(ranked, heatOf, i + 1, heatOf[i + 2])
    && !Collides(ranked, heatOf, i + 2, heatOf[i + 1])
  }

  ghost function SeparateAt(ranked: seq<SeedCandidate>, heatOf: seq<nat>, i: nat): (after: seq<nat>)
    requires i + 1 < |ranked| == |heatOf|
    ensures |after| == |heatOf|
  {
    if Exchanges(ranked, heatOf, i) then Swapped(heatOf, i) else heatOf
  }

  // The assignment once ranks below n have been visited.
  ghost function SeparateUpTo(ranked: seq<SeedCandidate>, heatOf: seq<nat>, n: nat): (after: seq<nat>)
    requires |ranked| == |heatOf| && (n == 0 || n < |ranked|)
    ensures |after| == |heatOf|
  {
    if n == 0 then heatOf else SeparateAt(ranked, SeparateUpTo(ranked, heatOf, n - 1), n - 1)
  }

  ghost function Separate(ranked: seq<SeedCandidate>, heatOf: seq<nat>): (after: seq<nat>)
    requires |ranked| == |heatOf|
    ensures |after| == |heatOf|
  {
    SeparateUpTo(ranked, heatOf, if ranked == [] then 0 else |ranked| - 1)
  }

  method WouldCollide(ranked: seq<SeedCandidate>, heatOf: array<nat>, idx: nat, heat: nat) returns (collides: bool)
    requires idx < |ranked| == heatOf.Length
    ensures collides <==> Collides(ranked, heatOf[..], idx, heat)
  {
    var club := ranked[idx].club;
    if club == "" {
      return false;
    }
    for i := 0 to heatOf.Length
      invariant forall j :: 0 <= j < i ==> j == idx || heatOf[j] != heat || ranked[j].club != club
    {
      if i != idx && heatOf[i] == heat && ranked[i].club == club {
        assert heatOf[..][i] == heat;
        return true;
      }
    }
    return false;
  }

  method SeparateClubs(ranked: seq<SeedCandidate>, heatOf: array<nat>)
    requires |ranked| == heatOf.Length
    modifies heatOf
    ensures heatOf[..] == Separate(ranked, old(heatOf[..]))
  {
    var i := 0;
    while i + 1 < |ranked|
      invariant i == 0 || i < |ranked|
      invariant heatOf[..] == SeparateUpTo(ranked, old(heatOf[..]), i)
    {
      var exchange := ConsiderExchange(ranked, heatOf, i);
      if exchange {
        heatOf[i + 1], heatOf[i + 2] := heatOf[i + 2], heatOf[i + 1];
      }
      i := i + 1;
    }
  }

  method ConsiderExchange(ranked: seq<SeedCandidate>, heatOf: array<nat>, i: nat) returns (exchange: bool)
    requires i + 1 < |ranked| == heatOf.Length
    ensures exchange <==> Exchanges(ranked, heatOf[..], i)
  {
    if heatOf[i] != heatOf[i + 1] || ranked[i].club == "" || ranked[i].club != ranked[i + 1].club {
      return false;
    }
    if i + 2 >= |ranked| || heatOf[i + 2] == heatOf[i + 1] {
      return false;
    }
    var first := WouldCollide(ranked, heatOf, i + 1, heatOf[i + 2]);
    if first {
      return false;
    }
    var second := WouldCollide(ranked, heatOf, i + 2, heatOf[i + 1]);
    return !second;
  }

  // --- The heats ---

  ghost function Assignment(ranked: seq<SeedCandidate>, h: nat, clubSeparation: bool): (heatOf: seq<nat>)
    requires h > 0
    ensures |heatOf| == |ranked|
  {
    var dealt := SerpentineAll(|ranked|, h);
    if clubSeparation then Separate(ranked, dealt) else dealt
  }

  // The candidates of one heat, best seed first.
  ghost function InHeat(ranked: seq<SeedCandidate>, heatOf: seq<nat>, heat: nat): seq<SeedCandidate>
    requires |ranked| == |heatOf|
  {
    if ranked == [] then [] else
    var n := |ranked| - 1;
    InHeat(ranked[..n], heatOf[..n], heat) + if heatOf[n] == heat then [ranked[n]] else []
  }

  method SeedHeats(ranked: seq<SeedCandidate>, heatCount: int, clubSeparation: bool)
    returns (r: Result<seq<seq<SeedCandidate>>, SeedError>)
    ensures heatCount <= 0 ==> r == Err(NoHeats)
    ensures heatCount > 0 ==> r.Ok? && |r.value| == heatCount
    ensures heatCount > 0 ==> forall k :: 0 <= k < heatCount ==>
              r.value[k] == InHeat(ranked, Assignment(ranked, heatCount, clubSeparation), k)
    ensures heatCount > 0 && !clubSeparation ==> forall k :: 0 <= k < heatCount ==>
              SeatedInTurn(ranked, heatCount, k, r.value[k])
  {
    if heatCount <= 0 {
      return Err(NoHeats);
    }
    var heatOf := new nat[|ranked|];
    for i := 0 to |ranked|
      invariant forall k :: 0 <= k < i ==> heatOf[k] == Serpentine(k, heatCount)
    {
      var p, j := i / heatCount, i % heatCount;
      heatOf[i] := if p % 2 == 0 then j else heatCount - 1 - j;
    }
    assert heatOf[..] == SerpentineAll(|ranked|, heatCount);
    if clubSeparation {
      SeparateClubs(ranked, heatOf);
    }
    AssignmentProperties(ranked, heatCount, clubSeparation);
    var heats := FillHeats(ranked, heatOf, heatCount);
    forall k | 0 <= k < heatCount && !clubSeparation ensures SeatedInTurn(ranked, heatCount, k, heats[k]) {
      HeatIsSeatedInTurn(ranked, heatCount, k);
    }
    return Ok(heats);
  }

  method FillHeats(ranked: seq<SeedCandidate>, heatOf: array<nat>, heatCount: nat)
    returns (heats: seq<seq<SeedCandidate>>)
    requires |ranked| == heatOf.Length && forall i :: 0 <= i < heatOf.Length ==> heatOf[i] < heatCount
    ensures |heats| == heatCount
    ensures forall k :: 0 <= k < heatCount ==> heats[k] == InHeat(ranked, heatOf[..], k)
  {
    heats := seq(heatCount, _ => []);
    for i := 0 to |ranked|
      invariant |heats| == heatCount
      invariant forall k :: 0 <= k < heatCount ==> heats[k] == InHeat(ranked[..i], heatOf[..i], k)
    {
      assert ranked[..i + 1][..i] == ranked[..i] && heatOf[..i + 1][..i] == heatOf[..i];
      heats := heats[heatOf[i] := heats[heatOf[i]] + [ranked[i]]];
    }
    assert ranked[..|ranked|] == ranked && heatOf[..|ranked|] == heatOf[..];
  }

  // --- Turn and turn about ---

  // The rank that takes seat q of a heat: down the heats in the first round, up in the second.
  function Seat(q: nat, heat: nat, h: nat): nat
    requires heat < h
  {
    q * h + if q % 2 == 0 then heat else h - 1 - heat
  }

  // The heat holds, in rank order, exactly the ranks whose turn it was.
  ghost predicate SeatedInTurn(ranked: seq<SeedCandidate>, h: nat, heat: nat, members: seq<SeedCandidate>)
    requires heat < h
  {
    && (forall q: nat :: q < |members| <==> Seat(q, heat, h) < |ranked|)
    && forall q: nat :: q < |members| ==> Seat(q, heat, h) < |ranked| && members[q] == ranked[Seat(q, heat, h)]
  }

  lemma SeatsRise(q: nat, p: nat, heat: nat, h: nat)
    requires heat < h && q < p
    ensures Seat(q, heat, h) < Seat(p, heat, h) && q * h <= Seat(q, heat, h) < (q + 1) * h
  {
    assert (q + 1) * h == q * h + h;
    Scale(q + 1, p, h);
  }

  lemma SeatHeat(i: nat, heat: nat, h: nat)
    requires heat < h
    ensures Serpentine(i, h) == heat <==> Seat(i / h, heat, h) == i
    ensures forall q: nat :: Seat(q, heat, h) == i ==> q == i / h
  {
    Division(i, h);
    forall q: nat | Seat(q, heat, h) == i ensures q == i / h {
      Quotient(i, h, q, if q % 2 == 0 then heat else h - 1 - heat);
    }
  }

  lemma {:induction false} HeatIsSeatedInTurn(ranked: seq<SeedCandidate>, h: nat, heat: nat)
    requires heat < h
    ensures SeatedInTurn(ranked, h, heat, InHeat(ranked, SerpentineAll(|ranked|, h), heat))
  {
    if ranked == [] {
      assert forall q: nat :: Seat(q, heat, h) >= 0;
    } else {
      var n := |ranked| - 1;
      var init := ranked[..n];
      HeatIsSeatedInTurn(init, h, heat);
      assert SerpentineAll(|ranked|, h)[..n] == SerpentineAll(n, h);
      NextSeat(init, ranked[n], h, heat, InHeat(init, SerpentineAll(n, h), heat));
      assert init + [ranked[n]] == ranked;
    }
  }

  lemma SeatsFilled(ranked: seq<SeedCandidate>, h: nat, heat: nat, members: seq<SeedCandidate>, q: nat)
    requires heat < h && SeatedInTurn(ranked, h, heat, members) && Seat(q, heat, h) >= |ranked|
    ensures |members| <= q
  {}

  lemma NextSeat(init: seq<SeedCandidate>, last: SeedCandidate, h: nat, heat: nat, members: seq<SeedCandidate>)
    requires heat < h && SeatedInTurn(init, h, heat, members)
    ensures SeatedInTurn(init + [last], h, heat, members + if Serpentine(|init|, h) == heat then [last] else [])
  {
    SeatHeat(|init|, heat, h);
    if Serpentine(|init|, h) == heat {
      SeatTaken(init, last, h, heat, members);
    } else {
      SeatPassed(init, last, h, heat, members);
      assert members + [] == members;
    }
  }

  lemma SeatTaken(init: seq<SeedCandidate>, last: SeedCandidate, h: nat, heat: nat, members: seq<SeedCandidate>)
    requires heat < h && SeatedInTurn(init, h, heat, members) && Seat(|init| / h, heat, h) == |init|
    ensures SeatedInTurn(init + [last], h, heat, members + [last])
  {
    var n, m := |init|, |members|;
    NextFreeSeat(init, h, heat, members, n / h);
    forall p: nat ensures p < m + 1 <==> Seat(p, heat, h) < n + 1 {
      if p > m { SeatsRise(m, p, heat, h); } else if p < m { SeatsRise(p, m, heat, h); }
    }
    forall p: nat | p < m + 1 ensures Seat(p, heat, h) < n + 1 && (members + [last])[p] == (init + [last])[Seat(p, heat, h)] {}
  }

  lemma NextFreeSeat(init: seq<SeedCandidate>, h: nat, heat: nat, members: seq<SeedCandidate>, q: nat)
    requires heat < h && SeatedInTurn(init, h, heat, members) && Seat(q, heat, h) == |init|
    ensures Seat(|members|, heat, h) == |init|
  {
    var m := |members|;
    SeatsFilled(init, h, heat, members, q);
    assert Seat(m, heat, h) >= |init|;
    if m < q { SeatsRise(m, q, heat, h); }
  }

  lemma SeatPassed(init: seq<SeedCandidate>, last: SeedCandidate, h: nat, heat: nat, members: seq<SeedCandidate>)
    requires heat < h && SeatedInTurn(init, h, heat, members) && forall q: nat :: Seat(q, heat, h) != |init|
    ensures SeatedInTurn(init + [last], h, heat, members)
  {}

  // Dealt without exchanges, the first h ranks open the heats in order.
  lemma TopOpensTheHeats(ranked: seq<SeedCandidate>, h: nat, i: nat)
    requires i < h && i < |ranked|
    ensures Assignment(ranked, h, false)[i] == i
  {
    Quotient(i, h, 0, i);
  }

  // Every later block goes back through the heats: it mirrors the block before it. So the last of
  // one block and the first of the next share a heat.
  lemma BlocksMirror(ranked: seq<SeedCandidate>, h: nat, q: nat, j: nat)
    requires q > 0 && j < h && q * h + j < |ranked|
    ensures 0 <= q * h - 1 - j && Assignment(ranked, h, false)[q * h + j] == Assignment(ranked, h, false)[q * h - 1 - j]
  {
    Mirrored(q, j, h);
  }

  lemma Mirrored(q: nat, j: nat, h: nat)
    requires q > 0 && j < h
    ensures 0 <= q * h - 1 - j && Serpentine(q * h + j, h) == Serpentine(q * h - 1 - j, h)
  {
    assert (q - 1) * h == q * h - h;
    Scale(1, q, h);
    Quotient(q * h + j, h, q, j);
    Quotient(q * h - 1 - j, h, q - 1, h - 1 - j);
  }

  // These ranks, ascending, are all those in the heat, and the members are theirs.
  ghost predicate Lists(ranks: seq<nat>, ranked: seq<SeedCandidate>, heatOf: seq<nat>, heat: nat, members: seq<SeedCandidate>)
    requires |ranked| == |heatOf|
  {
    && |ranks| == |members| && (forall i, j :: 0 <= i < j < |ranks| ==> ranks[i] < ranks[j])
    && (forall q :: 0 <= q < |ranks| ==> ranks[q] < |ranked| && heatOf[ranks[q]] == heat && members[q] == ranked[ranks[q]])
    && (forall i: nat :: i < |ranked| && heatOf[i] == heat ==> i in ranks)
  }

  // Exchanged or not, a heat lists its members in rank order.
  lemma {:induction false} HeatInRankOrder(ranked: seq<SeedCandidate>, heatOf: seq<nat>, heat: nat) returns (ranks: seq<nat>)
    requires |ranked| == |heatOf|
    ensures Lists(ranks, ranked, heatOf, heat, InHeat(ranked, heatOf, heat))
  {
    ranks := [];
    if ranked != [] {
      var n := |ranked| - 1;
      var init := HeatInRankOrder(ranked[..n], heatOf[..n], heat);
      ranks := init + if heatOf[n] == heat then [n] else [];
      ListsNext(init, ranked, heatOf, heat, InHeat(ranked[..n], heatOf[..n], heat));
    }
  }

  lemma ListsNext(init: seq<nat>, ranked: seq<SeedCandidate>, heatOf: seq<nat>, heat: nat, members: seq<SeedCandidate>)
    requires |ranked| == |heatOf| > 0
    requires var n := |ranked| - 1; Lists(init, ranked[..n], heatOf[..n], heat, members)
    ensures var n := |ranked| - 1;
            Lists(init + (if heatOf[n] == heat then [n] else []), ranked, heatOf, heat,
                  members + if heatOf[n] == heat then [ranked[n]] else [])
  {
    var n := |ranked| - 1;
    var ranks := init + if heatOf[n] == heat then [n] else [];
    forall i: nat | i < |ranked| && heatOf[i] == heat ensures i in ranks {
      if i < n { assert heatOf[..n][i] == heat && i in init; }
    }
  }

  // --- Blocks of consecutive ranks ---

  // Every block of h consecutive ranks, starting from the top, is spread over distinct heats.
  ghost predicate Spread(heatOf: seq<nat>, h: nat)
    requires h > 0
  {
    && (forall i :: 0 <= i < |heatOf| ==> heatOf[i] < h)
    && (forall i, j :: 0 <= i < j < |heatOf| && i / h == j / h ==> heatOf[i] != heatOf[j])
  }

  lemma SerpentineSpread(n: nat, h: nat)
    requires h > 0
    ensures Spread(SerpentineAll(n, h), h)
  {
    var heatOf := SerpentineAll(n, h);
    forall i, j | 0 <= i < j < n && i / h == j / h ensures heatOf[i] != heatOf[j] {
      assert i == (i / h) * h + i % h && j == (j / h) * h + j % h;
    }
  }

  // Neighbours sharing a heat straddle a block boundary, so the next neighbour is in the
  // later one's block.
  lemma Straddle(heatOf: seq<nat>, h: nat, i: nat)
    requires h > 1 && Spread(heatOf, h) && i + 2 < |heatOf| && heatOf[i] == heatOf[i + 1]
    ensures (i + 1) / h == (i + 2) / h
  {
    assert i / h != (i + 1) / h;
    NextBlock(i, h);
    NextBlock(i + 1, h);
  }

  lemma NextBlock(i: nat, h: nat)
    requires h > 1
    ensures (i + 1) / h == i / h || ((i + 1) % h == 0 && (i + 1) / h == i / h + 1)
    ensures (i + 1) % h == 0 ==> (i + 2) / h == (i + 1) / h
  {
    var q, r := i / h, i % h;
    assert i == q * h + r;
    if r + 1 < h {
      Quotient(i + 1, h, q, r + 1);
    } else {
      assert (q + 1) * h == q * h + h;
      Quotient(i + 1, h, q + 1, 0);
    }
    if (i + 1) % h == 0 {
      var p := (i + 1) / h;
      assert i + 2 == p * h + 1;
      Quotient(i + 2, h, p, 1);
    }
  }

  lemma Quotient(x: nat, h: nat, q: nat, r: nat)
    requires h > 0 && r < h && x == q * h + r
    ensures x / h == q && x % h == r
  {
    var p, s := x / h, x % h;
    assert x == p * h + s;
    assert (p + 1) * h == p * h + h && (q + 1) * h == q * h + h;
    if p < q { Scale(p + 1, q, h); }
    if q < p { Scale(q + 1, p, h); }
  }

  lemma SwapKeepsSpread(heatOf: seq<nat>, h: nat, i: nat)
    requires h > 0 && Spread(heatOf, h) && i + 2 < |heatOf|
    requires heatOf[i] == heatOf[i + 1] != heatOf[i + 2]
    ensures Spread(Swapped(heatOf, i), h)
    ensures multiset(Swapped(heatOf, i)) == multiset(heatOf)
  {
    assert h > 1;
    Straddle(heatOf, h, i);
    var after := Swapped(heatOf, i);
    forall a, b | 0 <= a < b < |after| && a / h == b / h ensures after[a] != after[b] {
      var x := if a == i + 1 then i + 2 else if a == i + 2 then i + 1 else a;
      var y := if b == i + 1 then i + 2 else if b == i + 2 then i + 1 else b;
      assert after[a] == heatOf[x] && after[b] == heatOf[y];
      assert x / h == y / h && x != y;
      assert heatOf[x] != heatOf[y] by { if y < x { assert heatOf[y] != heatOf[x]; } }
    }
  }

  lemma {:induction false} SeparateKeepsSpread(ranked: seq<SeedCandidate>, heatOf: seq<nat>, h: nat, n: nat)
    requires h > 0 && Spread(heatOf, h) && |ranked| == |heatOf| && (n == 0 || n < |ranked|)
    ensures Spread(SeparateUpTo(ranked, heatOf, n), h)
    ensures multiset(SeparateUpTo(ranked, heatOf, n)) == multiset(heatOf)
  {
    if n > 0 {
      SeparateKeepsSpread(ranked, heatOf, h, n - 1);
      var before := SeparateUpTo(ranked, heatOf, n - 1);
      if Exchanges(ranked, before, n - 1) { SwapKeepsSpread(before, h, n - 1); }
    }
  }

  // Club separation or not, every block of heatCount consecutive ranks occupies distinct
  // heats (so the top heatCount seeds never meet), and exchanges only permute the assignment.
  lemma AssignmentProperties(ranked: seq<SeedCandidate>, h: nat, clubSeparation: bool)
    requires h > 0
    ensures Spread(Assignment(ranked, h, clubSeparation), h)
    ensures multiset(Assignment(ranked, h, clubSeparation)) == multiset(SerpentineAll(|ranked|, h))
  {
    var dealt := SerpentineAll(|ranked|, h);
    SerpentineSpread(|ranked|, h);
    if clubSeparation && ranked != [] { SeparateKeepsSpread(ranked, dealt, h, |ranked| - 1); }
  }

  lemma TopSeedsNeverMeet(ranked: seq<SeedCandidate>, h: nat, clubSeparation: bool, i: nat, j: nat)
    requires i < j < |ranked| && j < h
    ensures var heatOf := Assignment(ranked, h, clubSeparation); heatOf[i] != heatOf[j]
  {
    AssignmentProperties(ranked, h, clubSeparation);
    Quotient(i, h, 0, i);
    Quotient(j, h, 0, j);
  }

  // --- Sizes ---

  function SameHeat(heat: nat): nat -> bool { x => x == heat }

  lemma {:induction false} SizeIsCount(ranked: seq<SeedCandidate>, heatOf: seq<nat>, heat: nat)
    requires |ranked| == |heatOf|
    ensures |InHeat(ranked, heatOf, heat)| == Count(SameHeat(heat), heatOf)
  {
    if ranked != [] {
      var n := |ranked| - 1;
      SizeIsCount(ranked[..n], heatOf[..n], heat);
      assert heatOf == heatOf[..n] + [heatOf[n]];
      CountAppend(SameHeat(heat), heatOf[..n], [heatOf[n]]);
    }
  }

  lemma {:induction false} CountDistinct(s: seq<nat>, heat: nat)
    requires Distinct(s)
    ensures Count(SameHeat(heat), s) == if heat in s then 1 else 0
  {
    if s != [] {
      assert s == [s[0]] + s[1..];
      CountDistinct(s[1..], heat);
    }
  }

  lemma {:induction false} DistinctSize(s: seq<nat>, values: set<nat>)
    requires Distinct(s) && forall x :: x in values <==> x in s
    ensures |values| == |s|
  {
    if s == [] {
      assert values == {};
    } else {
      var rest := values - {s[0]};
      forall x ensures x in rest <==> x in s[1..] {
        assert s == [s[0]] + s[1..];
      }
      DistinctSize(s[1..], rest);
    }
  }

  ghost function Below(h: nat): (all: set<nat>)
    ensures |all| == h && forall x: nat :: x in all <==> x < h
  {
    if h == 0 then {} else Below(h - 1) + {h - 1}
  }

  // h distinct heats below h are all the heats.
  lemma FullBlock(s: seq<nat>, h: nat, heat: nat)
    requires Distinct(s) && |s| == h && (forall x <- s :: x < h) && heat < h
    ensures heat in s
  {
    var values := set x | x in s;
    DistinctSize(s, values);
    assert values <= Below(h);
    if heat !in s {
      SubsetSize(values, Below(h) - {heat});
    }
  }

  lemma {:induction false} SubsetSize(a: set<nat>, b: set<nat>)
    requires a <= b
    ensures |a| <= |b|
  {
    if a != {} {
      var x :| x in a;
      SubsetSize(a - {x}, b - {x});
    }
  }

  lemma BlockIsDistinct(heatOf: seq<nat>, h: nat, q: nat, m: nat)
    requires h > 0 && Spread(heatOf, h) && m <= h && q * h + m <= |heatOf|
    ensures Distinct(heatOf[q * h..q * h + m])
  {
    var s := heatOf[q * h..q * h + m];
    forall i, j | 0 <= i < j < |s| ensures s[i] != s[j] {
      Quotient(q * h + i, h, q, i);
      Quotient(q * h + j, h, q, j);
      assert heatOf[q * h + i] != heatOf[q * h + j];
    }
  }

  // Each full block puts exactly one candidate in every heat.
  lemma {:induction false} FullBlocks(heatOf: seq<nat>, h: nat, q: nat, heat: nat)
    requires h > 0 && Spread(heatOf, h) && q * h <= |heatOf| && heat < h
    ensures Count(SameHeat(heat), heatOf[..q * h]) == q
  {
    if q > 0 {
      assert q * h == (q - 1) * h + h;
      FullBlocks(heatOf, h, q - 1, heat);
      var block := heatOf[(q - 1) * h..q * h];
      BlockIsDistinct(heatOf, h, q - 1, h);
      FullBlock(block, h, heat);
      CountDistinct(block, heat);
      assert heatOf[..q * h] == heatOf[..(q - 1) * h] + block;
      CountAppend(SameHeat(heat), heatOf[..(q - 1) * h], block);
    }
  }

  lemma SizeByBlocks(heatOf: seq<nat>, h: nat, q: nat, r: nat, heat: nat)
    requires h > 0 && Spread(heatOf, h) && heat < h && r < h && |heatOf| == q * h + r
    ensures q <= Count(SameHeat(heat), heatOf) <= q + (if r == 0 then 0 else 1)
  {
    var start := q * h;
    FullBlocks(heatOf, h, q, heat);
    BlockIsDistinct(heatOf, h, q, r);
    var tail := heatOf[start..start + r];
    CountDistinct(tail, heat);
    assert heatOf == heatOf[..start] + tail;
    CountAppend(SameHeat(heat), heatOf[..start], tail);
  }

  lemma FairShare(heatOf: seq<nat>, h: nat, heat: nat)
    requires h > 0 && Spread(heatOf, h) && heat < h
    ensures var n := |heatOf|;
            n / h <= Count(SameHeat(heat), heatOf) <= n / h + (if n % h == 0 then 0 else 1)
  {
    var q, r := |heatOf| / h, |heatOf| % h;
    Division(|heatOf|, h);
    SizeByBlocks(heatOf, h, q, r, heat);
  }

  // Heat sizes differ by at most one, and club separation does not change any of them.
  lemma BalancedHeats(ranked: seq<SeedCandidate>, h: nat, clubSeparation: bool, heat: nat)
    requires heat < h
    ensures var size := |InHeat(ranked, Assignment(ranked, h, clubSeparation), heat)|;
            && |ranked| / h <= size <= |ranked| / h + (if |ranked| % h == 0 then 0 else 1)
            && size == |InHeat(ranked, SerpentineAll(|ranked|, h), heat)|
  {
    var heatOf := Assignment(ranked, h, clubSeparation);
    AssignmentProperties(ranked, h, clubSeparation);
    SizeIsCount(ranked, heatOf, heat);
    SizeIsCount(ranked, SerpentineAll(|ranked|, h), heat);
    CountPermutation(SameHeat(heat), heatOf, SerpentineAll(|ranked|, h));
    FairShare(heatOf, h, heat);
  }

  lemma Division(n: nat, h: nat)
    requires h > 0
    ensures n == (n / h) * h + n % h && n % h < h
  {}

  // A heat that takes its share of at most h * cap candidates stays within the cap.
  lemma ShareWithinCap(n: nat, h: nat, cap: nat)
    requires h > 0 && n <= h * cap
    ensures n / h + (if n % h == 0 then 0 else 1) <= cap
  {
    Division(n, h);
    if n / h > cap { Scale(cap + 1, n / h, h); }
  }

  // With the chosen number of heats, none exceeds the cap.
  lemma NoHeatExceedsCap(ranked: seq<SeedCandidate>, maxHeatSize: int, clubSeparation: bool, heat: nat)
    requires ranked != [] && maxHeatSize > 0
    requires heat < ChooseHeatCount(|ranked|, maxHeatSize).value
    ensures var h := ChooseHeatCount(|ranked|, maxHeatSize).value;
            |InHeat(ranked, Assignment(ranked, h, clubSeparation), heat)| <= maxHeatSize
  {
    LeastSufficientCount(|ranked|, maxHeatSize);
    var h := ChooseHeatCount(|ranked|, maxHeatSize).value;
    BalancedHeats(ranked, h, clubSeparation, heat);
    assert h * maxHeatSize >= |ranked|;
    ShareWithinCap(|ranked|, h, maxHeatSize);
  }

  ghost function TimesIn(ranked: seq<SeedCandidate>, heatOf: seq<nat>, heat: nat, c: SeedCandidate): nat
    requires |ranked| == |heatOf|
  {
    multiset(InHeat(ranked, heatOf, heat))[c]
  }

  // How often a candidate appears over the first h heats.
  ghost function Appearances(ranked: seq<SeedCandidate>, heatOf: seq<nat>, h: nat, c: SeedCandidate): nat
    requires |ranked| == |heatOf|
  {
    if h == 0 then 0 else
    Appearances(ranked, heatOf, h - 1, c) + TimesIn(ranked, heatOf, h - 1, c)
  }

  // The heats hold every candidate exactly as often as the field does.
  lemma EveryoneIsSeededOnce(ranked: seq<SeedCandidate>, h: nat, clubSeparation: bool, c: SeedCandidate)
    requires h > 0
    ensures Appearances(ranked, Assignment(ranked, h, clubSeparation), h, c) == multiset(ranked)[c]
  {
    AssignmentProperties(ranked, h, clubSeparation);
    AppearancesAreHits(ranked, Assignment(ranked, h, clubSeparation), h, c);
    HitsEverywhere(ranked, Assignment(ranked, h, clubSeparation), h, c);
  }

  // How many ranks hold the candidate in a heat from low up to, but not including, high.
  ghost function Hits(ranked: seq<SeedCandidate>, heatOf: seq<nat>, low: nat, high: nat, c: SeedCandidate): nat
    requires |ranked| == |heatOf|
  {
    if ranked == [] then 0 else
    var n := |ranked| - 1;
    Hits(ranked[..n], heatOf[..n], low, high, c) + if low <= heatOf[n] < high && ranked[n] == c then 1 else 0
  }

  lemma {:induction false} HitsInHeat(ranked: seq<SeedCandidate>, heatOf: seq<nat>, heat: nat, c: SeedCandidate)
    requires |ranked| == |heatOf|
    ensures TimesIn(ranked, heatOf, heat, c) == Hits(ranked, heatOf, heat, heat + 1, c)
  {
    if ranked != [] { HitsInHeat(ranked[..|ranked| - 1], heatOf[..|ranked| - 1], heat, c); }
  }

  lemma {:induction false} HitsAdd(ranked: seq<SeedCandidate>, heatOf: seq<nat>, h: nat, c: SeedCandidate)
    requires |ranked| == |heatOf|
    ensures Hits(ranked, heatOf, 0, h + 1, c) == Hits(ranked, heatOf, 0, h, c) + Hits(ranked, heatOf, h, h + 1, c)
  {
    if ranked != [] { HitsAdd(ranked[..|ranked| - 1], heatOf[..|ranked| - 1], h, c); }
  }

  lemma {:induction false} HitsNone(ranked: seq<SeedCandidate>, heatOf: seq<nat>, c: SeedCandidate)
    requires |ranked| == |heatOf|
    ensures Hits(ranked, heatOf, 0, 0, c) == 0
  {
    if ranked != [] { HitsNone(ranked[..|ranked| - 1], heatOf[..|ranked| - 1], c); }
  }

  lemma {:induction false} HitsEverywhere(ranked: seq<SeedCandidate>, heatOf: seq<nat>, h: nat, c: SeedCandidate)
    requires |ranked| == |heatOf| && forall i :: 0 <= i < |heatOf| ==> heatOf[i] < h
    ensures Hits(ranked, heatOf, 0, h, c) == multiset(ranked)[c]
  {
    if ranked != [] {
      var n := |ranked| - 1;
      HitsEverywhere(ranked[..n], heatOf[..n], h, c);
      assert ranked == ranked[..n] + [ranked[n]];
    }
  }

  lemma {:induction false} AppearancesAreHits(ranked: seq<SeedCandidate>, heatOf: seq<nat>, h: nat, c: SeedCandidate)
    requires |ranked| == |heatOf|
    ensures Appearances(ranked, heatOf, h, c) == Hits(ranked, heatOf, 0, h, c)
  {
    if h == 0 {
      HitsNone(ranked, heatOf, c);
    } else {
      AppearancesAreHits(ranked, heatOf, h - 1, c);
      HitsInHeat(ranked, heatOf, h - 1, c);
      HitsAdd(ranked, heatOf, h - 1, c);
    }
  }

  // --- Exchanges only help ---

  // Pairs of ranks that share a club and a heat.
  ghost function ClubPairs(ranked: seq<SeedCandidate>, heatOf: seq<nat>): set<(nat, nat)>
    requires |ranked| == |heatOf|
  {
    set i: nat, j: nat | i < j < |ranked| && Paired(ranked, heatOf, i, j) :: (i, j)
  }

  ghost predicate Paired(ranked: seq<SeedCandidate>, heatOf: seq<nat>, i: nat, j: nat)
    requires i < |ranked| == |heatOf| && j < |ranked|
  {
    ranked[i].club != "" && ranked[i].club == ranked[j].club && heatOf[i] == heatOf[j]
  }

  // An exchange is made exactly where neighbours clash, the next rank is in another heat,
  // and swapping creates no pair of clubmates that was not there before.
  lemma ExchangesWhenHarmless(ranked: seq<SeedCandidate>, heatOf: seq<nat>, i: nat)
    requires i + 2 < |ranked| == |heatOf|
    requires Clash(ranked, heatOf, i) && heatOf[i + 2] != heatOf[i + 1]
    ensures Exchanges(ranked, heatOf, i)
            <==> ClubPairs(ranked, Swapped(heatOf, i)) <= ClubPairs(ranked, heatOf)
  {
    if Exchanges(ranked, heatOf, i) {
      EveryExchangeHelps(ranked, heatOf, i);
    } else {
      var after := Swapped(heatOf, i);
      var p: nat := if Collides(ranked, heatOf, i + 2, heatOf[i + 1]) then i + 2 else i + 1;
      var heat := after[p];
      assert Collides(ranked, heatOf, p, heat);
      var j: nat :| j < |heatOf| && j != p && heatOf[j] == heat && ranked[j].club == ranked[p].club;
      NewPair(ranked, heatOf, i, p, j);
    }
  }

  lemma NewPair(ranked: seq<SeedCandidate>, heatOf: seq<nat>, i: nat, p: nat, j: nat)
    requires i + 2 < |ranked| == |heatOf|
    requires Clash(ranked, heatOf, i) && heatOf[i + 2] != heatOf[i + 1]
    requires p == i + 1 || p == i + 2
    requires j < |heatOf| && j != p && ranked[p].club != "" && ranked[j].club == ranked[p].club
    requires heatOf[j] == Swapped(heatOf, i)[p]
    ensures !(ClubPairs(ranked, Swapped(heatOf, i)) <= ClubPairs(ranked, heatOf))
  {
    var after := Swapped(heatOf, i);
    // When the clubmate is the other half of the exchange, it meets rank i instead.
    var a: nat := if j == i + 1 || j == i + 2 then i else if j < p then j else p;
    var b: nat := if j == i + 1 || j == i + 2 then i + 2 else if j < p then p else j;
    assert Paired(ranked, after, a, b) && !Paired(ranked, heatOf, a, b);
    assert (a, b) in ClubPairs(ranked, after) && (a, b) !in ClubPairs(ranked, heatOf);
  }

  // Each exchange removes at least one pair of clubmates and creates none.
  lemma EveryExchangeHelps(ranked: seq<SeedCandidate>, heatOf: seq<nat>, i: nat)
    requires i + 1 < |ranked| == |heatOf| && Exchanges(ranked, heatOf, i)
    ensures ClubPairs(ranked, SeparateAt(ranked, heatOf, i)) < ClubPairs(ranked, heatOf)
  {
    var after := Swapped(heatOf, i);
    forall a: nat, b: nat | a < b < |ranked| && Paired(ranked, after, a, b)
      ensures Paired(ranked, heatOf, a, b)
    {
    }
    assert (i, i + 1) in ClubPairs(ranked, heatOf);
    assert !Paired(ranked, after, i, i + 1);
  }

  lemma {:induction false} SeparationHelpsUpTo(ranked: seq<SeedCandidate>, heatOf: seq<nat>, n: nat)
    requires |ranked| == |heatOf| && (n == 0 || n < |ranked|)
    ensures var after := SeparateUpTo(ranked, heatOf, n);
            after == heatOf || ClubPairs(ranked, after) < ClubPairs(ranked, heatOf)
  {
    if n > 0 {
      SeparationHelpsUpTo(ranked, heatOf, n - 1);
      var before := SeparateUpTo(ranked, heatOf, n - 1);
      if Exchanges(ranked, before, n - 1) { EveryExchangeHelps(ranked, before, n - 1); }
    }
  }

  // Club separation leaves plain serpentine as it is or strictly lowers the pairs of
  // clubmates who meet.
  lemma SeparationOnlyHelps(ranked: seq<SeedCandidate>, h: nat)
    requires h > 0
    ensures var plain, separated := Assignment(ranked, h, false), Assignment(ranked, h, true);
            separated == plain || ClubPairs(ranked, separated) < ClubPairs(ranked, plain)
  {
    if ranked != [] { SeparationHelpsUpTo(ranked, SerpentineAll(|ranked|, h), |ranked| - 1); }
  }
}
