/**
 The cache key of a ranking request. It hashes the capacity type, the OS type, the sizes in
 priority order and the sorted zones; the zone order and the count are left out. A cached
 outcome may therefore be served to any request with the same key, and is the right one.
 */
module RecommendationCacheKey {
  import opened TtlCache
  import opened StableSort
  import opened PlacementRanking
  import opened Recommendations

  /** String order of `sort.Strings`. */
  predicate Before(a: string, b: string) {
    b != "" && (a == "" || a[0] < b[0] || (a[0] == b[0] && Before(a[1..], b[1..])))
  }

  lemma {:induction false} BeforeTrichotomy(a: string, b: string)
    ensures a == b <==> !Before(a, b) && !Before(b, a)
    ensures !(Before(a, b) && Before(b, a))
  {
    if a != "" && b != "" {
      BeforeTrichotomy(a[1..], b[1..]);
      assert a == [a[0]] + a[1..] && b == [b[0]] + b[1..];
    }
  }

  lemma {:induction false} BeforeTransitive(a: string, b: string, c: string)
    requires Before(a, b) && Before(b, c)
    ensures Before(a, c)
  {
    if a != "" && a[0] == b[0] == c[0] {
      BeforeTransitive(a[1..], b[1..], c[1..]);
    }
  }

  lemma BeforeIsStrictWeakOrder()
    ensures StrictWeakOrder(Before)
    ensures forall a, b :: Tied(a, b, Before) <==> a == b
  {
    forall a, b, c
      ensures !Before(a, a) && (Tied(a, b, Before) <==> a == b)
      ensures Before(a, b) && Before(b, c) ==> Before(a, c)
      ensures !Before(a, b) && !Before(b, c) ==> !Before(a, c)
    {
      BeforeTrichotomy(a, a);
      BeforeTrichotomy(a, b);
      BeforeTrichotomy(b, c);
      if Before(a, b) && Before(b, c) {
        BeforeTransitive(a, b, c);
      }
      if !Before(a, b) && !Before(b, c) && Before(a, c) && a != b {
        BeforeTransitive(b, a, c);
      }
    }
  }

  function SortedZones(zones: seq<string>): seq<string> {
    SortStable(zones, Before)
  }

  datatype Fingerprint = Fingerprint(capacityType: string, osType: string, vmSizes: seq<string>, zones: seq<string>)

  function FingerprintOf(input: RankingInput): Fingerprint {
    Fingerprint(input.capacityType, input.osType, input.vmSizes, SortedZones(input.zones))
  }

  /** The hash library is a parameter. */
  function CacheKey(hash: Fingerprint -> nat, input: RankingInput): nat {
    hash(FingerprintOf(input))
  }

  // ----- Sorting the zones forgets their order and nothing else -----

  lemma {:induction false} TiesOfEquality(s: seq<string>, x: string)
    requires forall a, b :: Tied(a, b, Before) <==> a == b
    ensures Ties(s, x, Before) == seq(multiset(s)[x], _ => x)
  {
    if s != [] {
      TiesOfEquality(s[1..], x);
      assert s == [s[0]] + s[1..];
    }
  }

  lemma SortedZonesIffPermuted(a: seq<string>, b: seq<string>)
    ensures SortedZones(a) == SortedZones(b) <==> multiset(a) == multiset(b)
  {
    BeforeIsStrictWeakOrder();
    SortContract(a, Before);
    SortContract(b, Before);
    if multiset(a) == multiset(b) {
      forall x ensures Ties(SortedZones(a), x, Before) == Ties(SortedZones(b), x, Before) {
        TiesOfEquality(SortedZones(a), x);
        TiesOfEquality(SortedZones(b), x);
      }
      StableSortUnique(SortedZones(a), SortedZones(b), Before);
    }
  }

  /** What is hashed tells requests apart exactly by capacity type, OS, sizes in order, and zones in any order. */
  lemma SameFingerprintExactly(a: RankingInput, b: RankingInput)
    ensures FingerprintOf(a) == FingerprintOf(b) <==>
      && a.capacityType == b.capacityType && a.osType == b.osType && a.vmSizes == b.vmSizes
      && multiset(a.zones) == multiset(b.zones)
  {
    SortedZonesIffPermuted(a.zones, b.zones);
  }

  // ----- The outcome depends on what the key holds -----

  lemma {:induction false} OutcomeUsesZonesAsSet(id: string, choices: seq<Option<Choice>>, a: RankingInput, b: RankingInput)
    requires a.vmSizes == b.vmSizes && ZoneSet(a.zones) == ZoneSet(b.zones)
    ensures RankedRecommendations(id, choices, a) == RankedRecommendations(id, choices, b)
  {
    forall c, d ensures Better(a)(c, d) == Better(b)(c, d) {
      assert Rank(c, a) == Rank(c, b) && Rank(d, a) == Rank(d, b);
    }
    SortAgrees(NonNil(choices), Better(a), Better(b));
  }

  /**
   Cache soundness. Unless their two fingerprints collide in the hash, requests with the
   same key are ranked alike, whatever the response.
   */
  lemma SameKeySameOutcome(hash: Fingerprint -> nat, a: RankingInput, b: RankingInput, id: string, choices: seq<Option<Choice>>)
    requires CacheKey(hash, a) == CacheKey(hash, b)
    requires hash(FingerprintOf(a)) == hash(FingerprintOf(b)) ==> FingerprintOf(a) == FingerprintOf(b)
    ensures RankedRecommendations(id, choices, a) == RankedRecommendations(id, choices, b)
    ensures a.capacityType == b.capacityType && a.osType == b.osType && multiset(a.zones) == multiset(b.zones)
  {
    SortedZonesIffPermuted(a.zones, b.zones);
    forall z ensures z in a.zones <==> z in b.zones {
      assert z in a.zones <==> z in multiset(a.zones);
      assert z in b.zones <==> z in multiset(b.zones);
    }
    assert ZoneSet(a.zones) == ZoneSet(b.zones);
    OutcomeUsesZonesAsSet(id, choices, a, b);
  }

  /** Requests that differ in zone order and count only share an entry. */
  lemma KeyIgnoresZoneOrderAndCount(hash: Fingerprint -> nat, a: RankingInput, zones: seq<string>, count: int)
    requires multiset(zones) == multiset(a.zones)
    ensures CacheKey(hash, a.(zones := zones, count := count)) == CacheKey(hash, a)
  {
    SortedZonesIffPermuted(a.zones, zones);
  }

  /**
   The key is finer than the outcome: repeating a zone changes the key, never the ranking,
   so such a request fetches again.
   */
  lemma RepeatedZoneMissesTheCache(a: RankingInput, zone: string, id: string, choices: seq<Option<Choice>>)
    requires zone in a.zones
    ensures var b := a.(zones := a.zones + [zone]);
      && FingerprintOf(a) != FingerprintOf(b)
      && RankedRecommendations(id, choices, a) == RankedRecommendations(id, choices, b)
  {
    var b := a.(zones := a.zones + [zone]);
    SortedZonesIffPermuted(a.zones, b.zones);
    assert multiset(b.zones)[zone] == multiset(a.zones)[zone] + 1;
    assert ZoneSet(a.zones) == ZoneSet(b.zones);
    OutcomeUsesZonesAsSet(id, choices, a, b);
  }
}
