/**
 Clone-on-return. The cached recommendation details hold slices and pointers; every value
 that leaves the provider is a deep copy, so callers may scribble on what they got without
 touching the cache or each other.
 */
module RecommendationDetails {
  import opened TtlCache
  import opened Recommendations
  import RecommendationFetch

  /** A pointer's target. */
  class Box<T> {
    var value: T

    constructor (value: T)
      ensures this.value == value
    {
      this.value := value;
    }
  }

  class CapacityLimit {
    var limit: Box?<int>
    var name: Box?<string>
    var priority: Box?<string>
    var reason: Box?<string>
    var zone: Box?<string>

    constructor (limit: Box?<int>, name: Box?<string>, priority: Box?<string>, reason: Box?<string>, zone: Box?<string>)
      ensures this.limit == limit && this.name == name && this.priority == priority
      ensures this.reason == reason && this.zone == zone
    {
      this.limit, this.name, this.priority, this.reason, this.zone := limit, name, priority, reason, zone;
    }

    /** The limit and everything it points to. */
    ghost function Parts(): set<object>
      reads this
    {
      {this} + Target(limit) + Target(name) + Target(priority) + Target(reason) + Target(zone)
    }

    ghost function Contents(): LimitContents
      reads Parts()
    {
      LimitContents(Deref(limit), Deref(name), Deref(priority), Deref(reason), Deref(zone))
    }
  }

  datatype LimitContents = LimitContents(
    limit: Option<int>, name: Option<string>, priority: Option<string>, reason: Option<string>, zone: Option<string>)

  ghost function Target<T>(p: Box?<T>): set<object> {
    if p == null then {} else {p}
  }

  ghost function Deref<T>(p: Box?<T>): Option<T>
    reads p
  {
    if p == null then None else Some(p.value)
  }

  /** The struct passed around: two slices. */
  datatype Details = Details(recommendations: array<Recommendation>, capacityLimits: array<CapacityLimit?>)

  datatype DetailsContents = DetailsContents(recommendations: seq<Recommendation>, capacityLimits: seq<Option<LimitContents>>)

  /** Everything reachable from the details lies in the region. */
  ghost predicate Within(d: Details, region: set<object>)
    reads region
  {
    && d.recommendations in region && d.capacityLimits in region
    && forall i :: 0 <= i < d.capacityLimits.Length && d.capacityLimits[i] != null ==>
         d.capacityLimits[i] in region && d.capacityLimits[i].Parts() <= region
  }

  ghost function LimitAt(d: Details, region: set<object>, i: nat): Option<LimitContents>
    requires Within(d, region) && i < d.capacityLimits.Length
    reads region
  {
    if d.capacityLimits[i] == null then None else Some(d.capacityLimits[i].Contents())
  }

  ghost function Contents(d: Details, region: set<object>): DetailsContents
    requires Within(d, region)
    reads region
  {
    DetailsContents(
      d.recommendations[..],
      seq(d.capacityLimits.Length, i requires 0 <= i < d.capacityLimits.Length && Within(d, region) reads region =>
        LimitAt(d, region, i)))
  }

  /** Both nil, or both pointing to the same value. */
  ghost predicate SamePointee<T>(p: Box?<T>, q: Box?<T>)
    reads p, q
  {
    (p == null && q == null) || (p != null && q != null && p.value == q.value)
  }

  ghost predicate SameLimit(l: CapacityLimit?, m: CapacityLimit?)
    reads if l == null then {} else l.Parts(), if m == null then {} else m.Parts()
  {
    || (l == null && m == null)
    || (l != null && m != null && SamePointee(l.limit, m.limit) && SamePointee(l.name, m.name)
        && SamePointee(l.priority, m.priority) && SamePointee(l.reason, m.reason) && SamePointee(l.zone, m.zone))
  }

  /** Contents are all there is to see: equal contents mean equal recommendations and, field by field, equal limits. */
  lemma ContentsTellEverything(d: Details, r: set<object>, e: Details, s: set<object>)
    requires Within(d, r) && Within(e, s) && Contents(d, r) == Contents(e, s)
    ensures d.recommendations[..] == e.recommendations[..] && d.capacityLimits.Length == e.capacityLimits.Length
    ensures forall i :: 0 <= i < d.capacityLimits.Length ==> SameLimit(d.capacityLimits[i], e.capacityLimits[i])
  {
    forall i | 0 <= i < d.capacityLimits.Length
      ensures i < e.capacityLimits.Length && SameLimit(d.capacityLimits[i], e.capacityLimits[i])
    {
      assert Contents(d, r).capacityLimits[i] == LimitAt(d, r, i);
      assert Contents(e, s).capacityLimits[i] == LimitAt(e, s, i);
    }
  }

  method ClonePointer<T>(p: Box?<T>) returns (q: Box?<T>)
    ensures fresh(Target(q)) && Deref(q) == Deref(p) && SamePointee(p, q)
  {
    if p == null {
      return null;
    }
    q := new Box(p.value);
  }

  method CloneLimit(l: CapacityLimit) returns (m: CapacityLimit)
    ensures fresh(m.Parts()) && m.Contents() == l.Contents() && SameLimit(l, m)
  {
    var limit := ClonePointer(l.limit);
    var name := ClonePointer(l.name);
    var priority := ClonePointer(l.priority);
    var reason := ClonePointer(l.reason);
    var zone := ClonePointer(l.zone);
    m := new CapacityLimit(limit, name, priority, reason, zone);
  }

  /** `m` is an equal copy of what `l` was, made of objects of the region only. */
  twostate predicate IsCopy(l: CapacityLimit?, new m: CapacityLimit?, new region: set<object>)
    reads region
  {
    if l == null || m == null then l == null && m == null
    else m in region && m.Parts() <= region && m.Contents() == old(l.Contents())
  }

  method CloneLimits(a: seq<CapacityLimit?>) returns (limits: seq<CapacityLimit?>, ghost region: set<object>)
    ensures |limits| == |a| && fresh(region)
    ensures forall k :: 0 <= k < |a| ==> IsCopy(a[k], limits[k], region)
  {
    limits, region := [], {};
    for i := 0 to |a|
      invariant |limits| == i && fresh(region)
      invariant forall k :: 0 <= k < i ==> IsCopy(a[k], limits[k], region)
    {
      if a[i] == null {
        limits := limits + [null];
        continue;
      }
      var cloned := CloneLimit(a[i]);
      limits, region := limits + [cloned], region + cloned.Parts();
    }
  }

  /** Equal contents, nothing shared. */
  method Clone(d: Details, ghost region: set<object>) returns (c: Details, ghost made: set<object>)
    requires Within(d, region)
    ensures fresh(made) && Within(c, made) && Contents(c, made) == old(Contents(d, region))
  {
    var cloned;
    cloned, made := CloneLimits(d.capacityLimits[..]);
    var recs := new Recommendation[d.recommendations.Length](i requires 0 <= i < d.recommendations.Length reads d.recommendations => d.recommendations[i]);
    var limits := new CapacityLimit?[|cloned|](i requires 0 <= i < |cloned| => cloned[i]);
    c := Details(recs, limits);
    made := made + {recs, limits};
    forall i | 0 <= i < limits.Length
      ensures limits[i] == null <==> old(d.capacityLimits[i]) == null
      ensures limits[i] != null ==> limits[i] in made && limits[i].Parts() <= made && limits[i].Contents() == old(d.capacityLimits[i].Contents())
    {
      assert limits[i] == cloned[i];
    }
    assert recs[..] == old(d.recommendations[..]);
    assert forall i :: 0 <= i < limits.Length ==> LimitAt(c, made, i) == old(LimitAt(d, region, i));
  }

  lemma WithinLarger(d: Details, small: set<object>, large: set<object>)
    requires Within(d, small) && small <= large
    ensures Within(d, large) && Contents(d, large) == Contents(d, small)
  {
    assert forall i :: 0 <= i < d.capacityLimits.Length ==> LimitAt(d, large, i) == LimitAt(d, small, i);
  }

  datatype Slot = Slot(details: Details, expiry: int)

  /**
   The provider's side of the exchange. `kept` holds every object of the cached and
   in-flight values, `handedOut` every object given to a caller; they never meet.
   */
  class DetailsCache {
    var entries: map<nat, Slot>
    ghost var kept: set<object>
    ghost var handedOut: set<object>

    ghost predicate Valid()
      reads this, kept
    {
      && this !in kept && this !in handedOut && kept !! handedOut
      && forall key :: key in entries ==> Within(entries[key].details, kept)
    }

    ghost function Cached(key: nat): DetailsContents
      requires Valid() && key in entries
      reads this, kept
    {
      Contents(entries[key].details, kept)
    }

    predicate Hits(key: nat, now: int)
      reads this
    {
      key in entries && now <= entries[key].expiry
    }

    constructor ()
      ensures Valid() && entries == map[] && kept == {} && handedOut == {}
    {
      entries, kept, handedOut := map[], {}, {};
    }

    /** A live entry yields a copy that equals the cached value and consists of new objects. */
    method GetCached(key: nat, now: int) returns (r: Option<Details>, ghost made: set<object>)
      requires Valid()
      ensures r.Some? <==> key in entries && now <= entries[key].expiry
      ensures fresh(made)
      ensures r.Some? ==> Within(r.value, made) && Contents(r.value, made) == old(Cached(key))
    {
      if key !in entries || entries[key].expiry < now {
        return None, {};
      }
      var c;
      c, made := Clone(entries[key].details, kept);
      r := Some(c);
    }

    /** The look before the flight: a hit goes straight to the caller. */
    method FirstLook(key: nat, now: int) returns (r: Option<Details>, ghost made: set<object>)
      requires Valid()
      modifies this`handedOut
      ensures Valid() && handedOut == old(handedOut) + made && fresh(made)
      ensures r.Some? <==> Hits(key, now)
      ensures r.Some? ==> Within(r.value, made) && Contents(r.value, made) == old(Cached(key))
      ensures forall k :: k in entries ==> Cached(k) == old(Cached(k))
    {
      r, made := GetCached(key, now);
      handedOut := handedOut + made;
    }

    /** The look inside the flight: a hit becomes the flight's value, which stays with the provider. */
    method SecondLook(key: nat, now: int) returns (flight: Option<Details>)
      requires Valid()
      modifies this`kept
      ensures Valid() && old(kept) <= kept && fresh(kept - old(kept))
      ensures flight.Some? <==> Hits(key, now)
      ensures flight.Some? ==> Within(flight.value, kept) && Contents(flight.value, kept) == old(Cached(key))
      ensures forall k :: k in entries ==> Cached(k) == old(Cached(k))
    {
      ghost var made;
      flight, made := GetCached(key, now);
      KeepAlso(made);
      if flight.Some? {
        WithinLarger(flight.value, made, kept);
      }
    }

    /** More objects come into the provider's keeping; the cached values are what they were. */
    ghost method KeepAlso(more: set<object>)
      requires Valid() && more !! handedOut && this !in more
      modifies this`kept
      ensures Valid() && kept == old(kept) + more
      ensures forall k :: k in entries ==> Cached(k) == old(Cached(k))
    {
      var before := kept;
      kept := kept + more;
      forall k | k in entries ensures Within(entries[k].details, kept) && Contents(entries[k].details, kept) == old(Cached(k)) {
        WithinLarger(entries[k].details, before, kept);
      }
    }

    method Put(key: nat, details: Details, expiry: int)
      requires Valid() && Within(details, kept)
      modifies this`entries
      ensures Valid() && entries == old(entries)[key := Slot(details, expiry)]
      ensures Cached(key) == Contents(details, kept)
      ensures forall k :: k in old(entries) && k != key ==> Cached(k) == old(Cached(k))
    {
      entries := entries[key := Slot(details, expiry)];
    }

    /** Caches a new outcome and returns the copy that the flight shares between its callers. */
    method Store(key: nat, recommendations: array<Recommendation>, capacityLimits: array<CapacityLimit?>,
                 validUntil: Option<int>, now: int, ghost own: set<object>)
      returns (flight: Details)
      requires Valid() && own !! handedOut && this !in own
      requires Within(Details(recommendations, capacityLimits), own)
      modifies this`entries, this`kept
      ensures Valid() && entries.Keys == old(entries.Keys) + {key}
      ensures RecommendationFetch.IsExpiry(entries[key].expiry, now, validUntil)
      ensures Within(flight, kept) && Contents(flight, kept) == Cached(key) == old(Contents(Details(recommendations, capacityLimits), own))
      ensures forall k :: k in old(entries) && k != key ==> entries[k] == old(entries[k]) && Cached(k) == old(Cached(k))
    {
      var result := Details(recommendations, capacityLimits);
      ghost var made;
      flight, made := Clone(result, own);
      KeepAlso(own + made);
      WithinLarger(result, own, kept);
      WithinLarger(flight, made, kept);
      Put(key, result, now + RecommendationFetch.TtlFor(validUntil, now));
    }

    /** Every caller of a flight, whether it fetched or hit, gets its own copy of the flight's value. */
    method FinishFlight(flight: Details) returns (c: Details, ghost made: set<object>)
      requires Valid() && Within(flight, kept)
      modifies this`handedOut
      ensures Valid() && handedOut == old(handedOut) + made && fresh(made)
      ensures Within(c, made) && Contents(c, made) == old(Contents(flight, kept))
      ensures forall k :: k in entries ==> Cached(k) == old(Cached(k))
    {
      c, made := Clone(flight, kept);
      handedOut := handedOut + made;
    }

    /** Whatever callers do to the objects they were given, no later hit can tell. */
    method CallersMutate()
      requires Valid()
      modifies handedOut
      ensures Valid()
      ensures forall k :: k in entries ==> Cached(k) == old(Cached(k))
    {
      modify handedOut;
    }

    /**
     A caller hits and scribbles on its copy; another one misses the first look but hits the
     second inside the flight; a third joined that flight; the callers scribble once more
     before a fourth hits. All later copies equal the value cached at the start, and no two
     of the copies share an object.
     */
    method HitMutateHit(key: nat, first: int, second: int, third: int)
      returns (a: Details, b: Details, c: Details, d: Details,
               ghost ra: set<object>, ghost rb: set<object>, ghost rc: set<object>, ghost rd: set<object>,
               ghost seenByB: DetailsContents, ghost seenByC: DetailsContents)
      requires Valid() && Hits(key, first) && Hits(key, second) && Hits(key, third)
      modifies this`handedOut, this`kept, handedOut
      ensures Valid() && entries == old(entries) && Cached(key) == old(Cached(key))
      ensures Within(d, rd) && Contents(d, rd) == old(Cached(key)) == seenByB == seenByC
      ensures ra !! rb && (ra + rb) !! rc && (ra + rb + rc) !! rd && (ra + rb + rc + rd) !! kept
    {
      var hit, flight;
      hit, ra := FirstLook(key, first);
      a := hit.value;
      CallersMutate();
      flight := SecondLook(key, second);
      b, rb := FinishFlight(flight.value);
      c, rc := FinishFlight(flight.value);
      seenByB, seenByC := Contents(b, rb), Contents(c, rc);
      CallersMutate();
      hit, rd := FirstLook(key, third);
      d := hit.value;
    }
  }
}
