/**
 Ranking of SKU Mix Placement choices: the multi-level comparison, the statistics it reads,
 and the stable sort it drives.
 */
module PlacementRanking {
  import opened TtlCache
  import opened StableSort

  /** Pointer fields of the API types are options; a nil split list differs from an empty one. */
  datatype Priority = Regular | Spot | Unsupported(text: string)

  datatype Item = Item(name: Option<string>, zone: Option<string>, capacity: Option<int>, priority: Option<Priority>)

  datatype Choice = Choice(score: Option<int>, skuSplit: Option<seq<Option<Item>>>)

  datatype RankingInput = RankingInput(
    vmSizes: seq<string>, zones: seq<string>, capacityType: string, osType: string, count: int)

  /** `lo.FromPtr` */
  function FromPtr<T>(p: Option<T>, zero: T): T {
    if p.Some? then p.value else zero
  }

  function Splits(c: Choice): seq<Option<Item>> {
    FromPtr(c.skuSplit, [])
  }

  /** Two's-complement truncation to 32 bits. */
  function Wrap32(x: int): (r: int)
    ensures -0x8000_0000 <= r < 0x8000_0000 && (x - r) % 0x1_0000_0000 == 0
  {
    (x + 0x8000_0000) % 0x1_0000_0000 - 0x8000_0000
  }

  lemma Wrap32Add(x: int, y: int)
    ensures Wrap32(Wrap32(x) + y) == Wrap32(x + y)
  {
    var a, m := x + 0x8000_0000, 0x1_0000_0000;
    assert a == a / m * m + a % m;
    assert (a % m + y) % m == (a + y) % m;
  }

  // ----- Statistics of a choice -----

  predicate IsSize(item: Option<Item>, vmSize: string) {
    item.Some? && FromPtr(item.value.name, "") == vmSize
  }

  /** Capacity the splits give a size, before truncation. */
  function CapacityOf(splits: seq<Option<Item>>, vmSize: string): int {
    if splits == [] then 0
    else
      var last := splits[|splits| - 1];
      CapacityOf(splits[..|splits| - 1], vmSize) + if IsSize(last, vmSize) then FromPtr(last.value.capacity, 0) else 0
  }

  /** Requested zones the splits of a size reach. */
  function ZonesOf(splits: seq<Option<Item>>, vmSize: string, requested: set<string>): set<string> {
    set i | 0 <= i < |splits| && IsSize(splits[i], vmSize) && splits[i].value.zone.Some? && splits[i].value.zone.value in requested
      :: splits[i].value.zone.value
  }

  /** Requested zones any split reaches. */
  function ZonesCovered(splits: seq<Option<Item>>, requested: set<string>): set<string> {
    set i | 0 <= i < |splits| && splits[i].Some? && splits[i].value.zone.Some? && splits[i].value.zone.value in requested
      :: splits[i].value.zone.value
  }

  method SkuStats(choice: Choice, vmSize: string, requested: set<string>) returns (capacity: int, zoneCount: nat)
    ensures capacity == Wrap32(CapacityOf(Splits(choice), vmSize))
    ensures zoneCount == |ZonesOf(Splits(choice), vmSize, requested)|
  {
    capacity := 0;
    var zones: set<string> := {};
    var splits := Splits(choice);
    for i := 0 to |splits|
      invariant capacity == Wrap32(CapacityOf(splits[..i], vmSize))
      invariant zones == ZonesOf(splits[..i], vmSize, requested)
    {
      assert splits[..i + 1][..i] == splits[..i];
      var item := splits[i];
      assert forall k :: 0 <= k < i ==> splits[..i + 1][k] == splits[..i][k];
      if item.None? || FromPtr(item.value.name, "") != vmSize {
        continue;
      }
      Wrap32Add(CapacityOf(splits[..i], vmSize), FromPtr(item.value.capacity, 0));
      capacity := Wrap32(capacity + FromPtr(item.value.capacity, 0));
      if item.value.zone.None? {
        continue;
      }
      if item.value.zone.value in requested {
        zones := zones + {item.value.zone.value};
        assert splits[..i + 1][i] == item;
      }
    }
    assert splits[..|splits|] == splits;
    zoneCount := |zones|;
  }

  method RequestedZoneCoverage(choice: Choice, requested: set<string>) returns (count: nat)
    ensures count == |ZonesCovered(Splits(choice), requested)|
  {
    var covered: set<string> := {};
    var splits := Splits(choice);
    for i := 0 to |splits|
      invariant covered == ZonesCovered(splits[..i], requested)
    {
      var split := splits[i];
      assert forall k :: 0 <= k < i ==> splits[..i + 1][k] == splits[..i][k];
      assert splits[..i + 1][i] == split;
      if split.None? || split.value.zone.None? {
        continue;
      }
      if split.value.zone.value in requested {
        covered := covered + {split.value.zone.value};
      }
    }
    assert splits[..|splits|] == splits;
    count := |covered|;
  }

  // ----- The order -----

  function ZoneSet(zones: seq<string>): set<string> {
    set z | z in zones
  }

  /** What a choice is judged by, most important first. */
  function Rank(c: Choice, input: RankingInput): seq<int> {
    [FromPtr(c.score, 0)] + RankFrom(c, input.vmSizes, ZoneSet(input.zones))
  }

  function RankFrom(c: Choice, vmSizes: seq<string>, requested: set<string>): seq<int> {
    if vmSizes == [] then [|ZonesCovered(Splits(c), requested)|]
    else
      [Wrap32(CapacityOf(Splits(c), vmSizes[0])), |ZonesOf(Splits(c), vmSizes[0], requested)|]
      + RankFrom(c, vmSizes[1..], requested)
  }

  predicate LexGreater(a: seq<int>, b: seq<int>) {
    a != [] && b != [] && (a[0] > b[0] || (a[0] == b[0] && LexGreater(a[1..], b[1..])))
  }

  function Better(input: RankingInput): (Choice, Choice) -> bool {
    (c: Choice, d: Choice) => LexGreater(Rank(c, input), Rank(d, input))
  }

  /** The nested comparison with its early returns is the lexicographic order on ranks. */
  method PlacementChoiceIsBetter(candidate: Choice, current: Choice, input: RankingInput) returns (better: bool)
    ensures better == Better(input)(candidate, current)
    ensures better <==> Outranks(candidate, current, input)
  {
    BetterMeansOutranks(candidate, current, input);
    var currentScore := FromPtr(current.score, 0);
    var candidateScore := FromPtr(candidate.score, 0);
    if candidateScore != currentScore {
      return candidateScore > currentScore;
    }
    var requested := ZoneSet(input.zones);
    assert Rank(candidate, input)[1..] == RankFrom(candidate, input.vmSizes, requested);
    assert Rank(current, input)[1..] == RankFrom(current, input.vmSizes, requested);
    for i := 0 to |input.vmSizes|
      invariant Better(input)(candidate, current) ==
        LexGreater(RankFrom(candidate, input.vmSizes[i..], requested), RankFrom(current, input.vmSizes[i..], requested))
    {
      var rest := input.vmSizes[i..];
      assert rest[1..] == input.vmSizes[i + 1..];
      var candidateCapacity, candidateZones := SkuStats(candidate, rest[0], requested);
      var currentCapacity, currentZones := SkuStats(current, rest[0], requested);
      var a, b := RankFrom(candidate, rest, requested), RankFrom(current, rest, requested);
      assert a[1..][1..] == RankFrom(candidate, rest[1..], requested);
      assert b[1..][1..] == RankFrom(current, rest[1..], requested);
      if candidateCapacity != currentCapacity {
        return candidateCapacity > currentCapacity;
      }
      if candidateZones != currentZones {
        return candidateZones > currentZones;
      }
    }
    var covered := RequestedZoneCoverage(candidate, requested);
    var currentCovered := RequestedZoneCoverage(current, requested);
    better := covered > currentCovered;
  }

  lemma {:induction false} RankLength(c: Choice, vmSizes: seq<string>, requested: set<string>)
    ensures |RankFrom(c, vmSizes, requested)| == 2 * |vmSizes| + 1
  {
    if vmSizes != [] {
      RankLength(c, vmSizes[1..], requested);
    }
  }

  /** On equally long lists the lexicographic order is total: unordered means equal. */
  lemma {:induction false} LexTrichotomy(a: seq<int>, b: seq<int>)
    requires |a| == |b|
    ensures a == b <==> !LexGreater(a, b) && !LexGreater(b, a)
    ensures !(LexGreater(a, b) && LexGreater(b, a))
  {
    if a != [] {
      LexTrichotomy(a[1..], b[1..]);
      assert a == b <==> a[0] == b[0] && a[1..] == b[1..] by {
        assert a == [a[0]] + a[1..] && b == [b[0]] + b[1..];
      }
    }
  }

  lemma {:induction false} LexTransitive(a: seq<int>, b: seq<int>, c: seq<int>)
    requires LexGreater(a, b) && LexGreater(b, c)
    ensures LexGreater(a, c)
  {
    if a[0] == b[0] == c[0] {
      LexTransitive(a[1..], b[1..], c[1..]);
    }
  }

  /** Choices are tied exactly when they have the same rank. */
  lemma TiedMeansSameRank(c: Choice, d: Choice, input: RankingInput)
    ensures Tied(c, d, Better(input)) <==> Rank(c, input) == Rank(d, input)
  {
    RankLength(c, input.vmSizes, ZoneSet(input.zones));
    RankLength(d, input.vmSizes, ZoneSet(input.zones));
    LexTrichotomy(Rank(c, input), Rank(d, input));
  }

  lemma BetterIsStrictWeakOrder(input: RankingInput)
    ensures StrictWeakOrder(Better(input))
  {
    var less := Better(input);
    forall x, y, z
      ensures !less(x, x)
      ensures less(x, y) && less(y, z) ==> less(x, z)
      ensures !less(x, y) && !less(y, z) ==> !less(x, z)
    {
      TiedMeansSameRank(x, x, input);
      var a, b, c := Rank(x, input), Rank(y, input), Rank(z, input);
      if less(x, y) && less(y, z) {
        LexTransitive(a, b, c);
      }
      if !less(x, y) && !less(y, z) && less(x, z) {
        TiedMeansSameRank(x, y, input);
        TiedMeansSameRank(y, z, input);
        if less(z, y) {
          LexTransitive(a, c, b);
        } else if less(y, x) {
          LexTransitive(b, a, c);
        }
      }
    }
  }

  // ----- What the order prefers -----

  /** Capacities of the splits that name the size, in order; a missing capacity is zero. */
  function SizeCapacities(splits: seq<Option<Item>>, vmSize: string): seq<int> {
    if splits == [] then []
    else if splits[0].None? || (if splits[0].value.name.Some? then splits[0].value.name.value else "") != vmSize then
      SizeCapacities(splits[1..], vmSize)
    else
      [if splits[0].value.capacity.Some? then splits[0].value.capacity.value else 0] + SizeCapacities(splits[1..], vmSize)
  }

  function Sum(xs: seq<int>): int {
    if xs == [] then 0 else xs[0] + Sum(xs[1..])
  }

  /** The size's capacity as a 32-bit number. */
  function Capacity(c: Choice, vmSize: string): int {
    Wrap32(Sum(SizeCapacities(Splits(c), vmSize)))
  }

  predicate Reaches(split: Option<Item>, zone: string) {
    split.Some? && split.value.zone == Some(zone)
  }

  /** Requested zones that a split of the size names. */
  ghost function SizeZones(c: Choice, vmSize: string, zones: seq<string>): set<string> {
    set z | z in zones && exists i :: 0 <= i < |Splits(c)| && Reaches(Splits(c)[i], z)
                                 && (if Splits(c)[i].value.name.Some? then Splits(c)[i].value.name.value else "") == vmSize
  }

  /** Requested zones that any split names. */
  ghost function AllZones(c: Choice, zones: seq<string>): set<string> {
    set z | z in zones && exists i :: 0 <= i < |Splits(c)| && Reaches(Splits(c)[i], z)
  }

  ghost predicate SizeTied(c: Choice, d: Choice, vmSize: string, zones: seq<string>) {
    Capacity(c, vmSize) == Capacity(d, vmSize) && |SizeZones(c, vmSize, zones)| == |SizeZones(d, vmSize, zones)|
  }

  /** More capacity for the size, or the same capacity in more requested zones. */
  ghost predicate SizeAhead(c: Choice, d: Choice, vmSize: string, zones: seq<string>) {
    || Capacity(c, vmSize) > Capacity(d, vmSize)
    || (Capacity(c, vmSize) == Capacity(d, vmSize) && |SizeZones(c, vmSize, zones)| > |SizeZones(d, vmSize, zones)|)
  }

  ghost predicate TiedUpTo(c: Choice, d: Choice, input: RankingInput, n: nat)
    requires n <= |input.vmSizes|
  {
    forall j :: 0 <= j < n ==> SizeTied(c, d, input.vmSizes[j], input.zones)
  }

  /**
   The higher score wins. Between equal scores the first size, in priority order, that the
   choices do not tie on decides, and if they tie on all sizes, reaching more requested zones.
   */
  ghost predicate Outranks(c: Choice, d: Choice, input: RankingInput) {
    var x, y := if c.score.Some? then c.score.value else 0, if d.score.Some? then d.score.value else 0;
    || x > y
    || (x == y && exists i: nat :: i < |input.vmSizes| && TiedUpTo(c, d, input, i) && SizeAhead(c, d, input.vmSizes[i], input.zones))
    || (x == y && TiedUpTo(c, d, input, |input.vmSizes|) && |AllZones(c, input.zones)| > |AllZones(d, input.zones)|)
  }

  lemma {:induction false} SumAppend(xs: seq<int>, ys: seq<int>)
    ensures Sum(xs + ys) == Sum(xs) + Sum(ys)
  {
    if xs == [] {
      assert xs + ys == ys;
    } else {
      assert (xs + ys)[1..] == xs[1..] + ys;
      SumAppend(xs[1..], ys);
    }
  }

  lemma {:induction false} SizeCapacitiesAppend(a: seq<Option<Item>>, b: seq<Option<Item>>, vmSize: string)
    ensures SizeCapacities(a + b, vmSize) == SizeCapacities(a, vmSize) + SizeCapacities(b, vmSize)
  {
    if a == [] {
      assert a + b == b;
    } else {
      assert (a + b)[1..] == a[1..] + b;
      SizeCapacitiesAppend(a[1..], b, vmSize);
    }
  }

  /** The accumulated capacity is the sum of the size's split capacities. */
  lemma {:induction false} CapacityIsSum(splits: seq<Option<Item>>, vmSize: string)
    ensures CapacityOf(splits, vmSize) == Sum(SizeCapacities(splits, vmSize))
  {
    if splits != [] {
      var front, last := splits[..|splits| - 1], splits[|splits| - 1];
      CapacityIsSum(front, vmSize);
      SizeCapacitiesAppend(front, [last], vmSize);
      SumAppend(SizeCapacities(front, vmSize), SizeCapacities([last], vmSize));
      assert splits == front + [last] && [last][1..] == [];
    }
  }

  lemma ZonesAgree(c: Choice, vmSize: string, zones: seq<string>)
    ensures ZonesOf(Splits(c), vmSize, ZoneSet(zones)) == SizeZones(c, vmSize, zones)
    ensures ZonesCovered(Splits(c), ZoneSet(zones)) == AllZones(c, zones)
  {
    var splits := Splits(c);
    forall z ensures z in ZonesOf(splits, vmSize, ZoneSet(zones)) <==> z in SizeZones(c, vmSize, zones) {
      if z in ZonesOf(splits, vmSize, ZoneSet(zones)) {
        var i :| 0 <= i < |splits| && IsSize(splits[i], vmSize) && splits[i].value.zone == Some(z);
        assert Reaches(splits[i], z);
      }
    }
    forall z ensures z in ZonesCovered(splits, ZoneSet(zones)) <==> z in AllZones(c, zones) {
      if z in ZonesCovered(splits, ZoneSet(zones)) {
        var i :| 0 <= i < |splits| && splits[i].Some? && splits[i].value.zone == Some(z);
        assert Reaches(splits[i], z);
      }
    }
  }

  /** From size `n` on, equal so far: the rest of the rank decides as the sizes from `n` on do. */
  ghost predicate OutranksFrom(c: Choice, d: Choice, input: RankingInput, n: nat)
    requires n <= |input.vmSizes|
  {
    || (exists i :: n <= i < |input.vmSizes| && TiedUpTo(c, d, input, i) && SizeAhead(c, d, input.vmSizes[i], input.zones))
    || (TiedUpTo(c, d, input, |input.vmSizes|) && |AllZones(c, input.zones)| > |AllZones(d, input.zones)|)
  }

  /** Two entries of a rank, then the rest. */
  lemma LexTwo(a: seq<int>, b: seq<int>)
    requires |a| >= 2 && |b| >= 2
    ensures LexGreater(a, b) <==>
      a[0] > b[0] || (a[0] == b[0] && (a[1] > b[1] || (a[1] == b[1] && LexGreater(a[2..], b[2..]))))
  {
    assert a[1..][1..] == a[2..] && b[1..][1..] == b[2..];
  }

  lemma RankOfSize(c: Choice, vmSizes: seq<string>, zones: seq<string>)
    requires vmSizes != []
    ensures var r := RankFrom(c, vmSizes, ZoneSet(zones));
      && |r| >= 2 && r[0] == Capacity(c, vmSizes[0]) && r[1] == |SizeZones(c, vmSizes[0], zones)|
      && r[2..] == RankFrom(c, vmSizes[1..], ZoneSet(zones))
  {
    CapacityIsSum(Splits(c), vmSizes[0]);
    ZonesAgree(c, vmSizes[0], zones);
  }

  /** One size either decides or passes the decision on. */
  lemma OutranksStep(c: Choice, d: Choice, input: RankingInput, n: nat)
    requires n < |input.vmSizes| && TiedUpTo(c, d, input, n)
    ensures var z := input.vmSizes[n];
      OutranksFrom(c, d, input, n) <==>
        SizeAhead(c, d, z, input.zones) || (SizeTied(c, d, z, input.zones) && OutranksFrom(c, d, input, n + 1))
  {
    var z := input.vmSizes[n];
    assert SizeTied(c, d, z, input.zones) ==> !SizeAhead(c, d, z, input.zones);
    assert TiedUpTo(c, d, input, n + 1) <==> SizeTied(c, d, z, input.zones);
    assert TiedUpTo(c, d, input, |input.vmSizes|) ==> SizeTied(c, d, z, input.zones);
    assert forall i :: n < i < |input.vmSizes| && TiedUpTo(c, d, input, i) ==> SizeTied(c, d, z, input.zones);
  }

  lemma {:induction false} RestDecides(c: Choice, d: Choice, input: RankingInput, n: nat)
    requires n <= |input.vmSizes| && TiedUpTo(c, d, input, n)
    ensures var requested, rest := ZoneSet(input.zones), input.vmSizes[n..];
      LexGreater(RankFrom(c, rest, requested), RankFrom(d, rest, requested)) <==> OutranksFrom(c, d, input, n)
    decreases |input.vmSizes| - n
  {
    var requested, rest := ZoneSet(input.zones), input.vmSizes[n..];
    if rest == [] {
      ZonesAgree(c, "", input.zones);
      ZonesAgree(d, "", input.zones);
    } else {
      RankOfSize(c, rest, input.zones);
      RankOfSize(d, rest, input.zones);
      LexTwo(RankFrom(c, rest, requested), RankFrom(d, rest, requested));
      assert rest[1..] == input.vmSizes[n + 1..];
      OutranksStep(c, d, input, n);
      if SizeTied(c, d, rest[0], input.zones) {
        RestDecides(c, d, input, n + 1);
      }
    }
  }

  /** The order is the one described: nothing in a rank but these criteria, in this sequence. */
  lemma BetterMeansOutranks(c: Choice, d: Choice, input: RankingInput)
    ensures Better(input)(c, d) <==> Outranks(c, d, input)
  {
    var requested := ZoneSet(input.zones);
    RestDecides(c, d, input, 0);
    assert input.vmSizes[0..] == input.vmSizes;
    assert Rank(c, input)[1..] == RankFrom(c, input.vmSizes, requested);
    assert Rank(d, input)[1..] == RankFrom(d, input.vmSizes, requested);
  }

  /** What decides between equal scores, one criterion at a time. */
  lemma FirstDifferenceDecides(c: Choice, d: Choice, input: RankingInput, i: nat)
    requires i <= |input.vmSizes| && (if c.score.Some? then c.score.value else 0) == (if d.score.Some? then d.score.value else 0)
    requires forall j :: 0 <= j < i ==>
      && Capacity(c, input.vmSizes[j]) == Capacity(d, input.vmSizes[j])
      && |SizeZones(c, input.vmSizes[j], input.zones)| == |SizeZones(d, input.vmSizes[j], input.zones)|
    ensures i < |input.vmSizes| ==>
      var x, y := Capacity(c, input.vmSizes[i]), Capacity(d, input.vmSizes[i]);
      var p, q := |SizeZones(c, input.vmSizes[i], input.zones)|, |SizeZones(d, input.vmSizes[i], input.zones)|;
      && (x != y ==> (Better(input)(c, d) <==> x > y))
      && (x == y && p != q ==> (Better(input)(c, d) <==> p > q))
    ensures i == |input.vmSizes| ==> (Better(input)(c, d) <==> |AllZones(c, input.zones)| > |AllZones(d, input.zones)|)
  {
    BetterMeansOutranks(c, d, input);
    assert TiedUpTo(c, d, input, i);
    assert OutranksFrom(c, d, input, i) <==> Outranks(c, d, input) by {
      assert forall k :: 0 <= k < i ==> SizeTied(c, d, input.vmSizes[k], input.zones);
    }
    if i < |input.vmSizes| {
      OutranksStep(c, d, input, i);
    }
  }

  // ----- Sorting -----

  function NonNil(choices: seq<Option<Choice>>): seq<Choice> {
    if choices == [] then []
    else
      var last := choices[|choices| - 1];
      NonNil(choices[..|choices| - 1]) + if last.Some? then [last.value] else []
  }

  lemma {:induction false} NonNilCounts(choices: seq<Option<Choice>>, c: Choice)
    ensures multiset(NonNil(choices))[c] == multiset(choices)[Some(c)]
  {
    if choices != [] {
      var front, last := choices[..|choices| - 1], choices[|choices| - 1];
      NonNilCounts(front, c);
      assert choices == front + [last];
    }
  }

  /** Sorted copy of the response's non-nil choices, API order kept between ties. */
  method SortedPlacementChoices(placementChoices: seq<Option<Choice>>, input: RankingInput) returns (choices: seq<Choice>)
    ensures Sorted(choices, Better(input)) && Stable(NonNil(placementChoices), choices, Better(input))
    ensures multiset(choices) == multiset(NonNil(placementChoices))
    ensures choices == SortStable(NonNil(placementChoices), Better(input))
    ensures forall c :: multiset(choices)[c] == multiset(placementChoices)[Some(c)]
    ensures forall i, j :: 0 <= i < j < |choices| ==> !Outranks(choices[j], choices[i], input)
  {
    choices := [];
    for i := 0 to |placementChoices|
      invariant choices == NonNil(placementChoices[..i])
    {
      assert placementChoices[..i + 1][..i] == placementChoices[..i];
      if placementChoices[i].None? {
        continue;
      }
      choices := choices + [placementChoices[i].value];
    }
    assert placementChoices[..|placementChoices|] == placementChoices;
    BetterIsStrictWeakOrder(input);
    SortContract(choices, Better(input));
    choices := SortStable(choices, Better(input));
    forall c ensures multiset(choices)[c] == multiset(placementChoices)[Some(c)] {
      NonNilCounts(placementChoices, c);
    }
    forall i, j | 0 <= i < j < |choices| ensures !Outranks(choices[j], choices[i], input) {
      BetterMeansOutranks(choices[j], choices[i], input);
    }
  }
}
