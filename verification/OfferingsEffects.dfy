/**
 What one call does to the answer for every offering in every scope, both directions.
 */
module OfferingsEffects {
  import opened TtlCache
  import opened OfferingKeys
  import opened OfferingsModel
  import opened Text

  /** The read offering sits in the same family, zone and capacity type, letter case aside. */
  predicate SameFamily(scope: string, sku: Sku, zone: string, capacityType: string,
                       scope': string, sku': Sku, zone': string, capacityType': string) {
    FoldFamily(Family(scope, sku.family, zone, capacityType)) == FoldFamily(Family(scope', sku'.family, zone', capacityType'))
  }

  /** Storing a live single key adds that key to the live ones and nothing else. */
  lemma PutSingleAddsOne(s: State, k: SingleKey, ttl: int, k': SingleKey)
    requires WfSingle(k) && WfSingle(k')
    ensures SingleLive(PutSingle(s, PrintSingle(k), ttl), PrintSingle(k')) <==> k' == k || SingleLive(s, PrintSingle(k'))
  {
    PrintSingleInjective(k, k');
  }

  /** A family mark blocks exactly the sizes at or above its threshold, on top of those blocked already. */
  lemma MarkFamilyAtBlocks(s: State, scope: string, sku: Sku, zone: string, capacityType: string, cpuCount: int, ttl: int,
                           scope': string, sku': Sku, zone': string, capacityType': string)
    requires WfFamily(Family(scope, sku.family, zone, capacityType))
    requires WfFamily(Family(scope', sku'.family, zone', capacityType'))
    requires WHOLE_FAMILY_BLOCKED <= CpuCount(sku')
    ensures IsFamilyUnavailable(MarkFamilyAt(s, scope, sku, zone, capacityType, cpuCount, ttl), scope', sku', zone', capacityType')
      <==> || IsFamilyUnavailable(s, scope', sku', zone', capacityType')
           || (&& sku.family != "" && CpuCount(sku') >= cpuCount
               && SameFamily(scope, sku, zone, capacityType, scope', sku', zone', capacityType'))
  {
    PrintFamilyInjective(Family(scope, sku.family, zone, capacityType), Family(scope', sku'.family, zone', capacityType'));
  }

  /**
   Marking one offering outside any group: the offering itself becomes unavailable, and with
   it every size of the same family with at least as many vCPUs, in the unreserved scope
   only. Every other answer stays as it was.
   */
  lemma MarkUnreservedExactly(s: State, sku: Sku, zone: string, capacityType: string, ttl: int,
                              group': string, sku': Sku, zone': string, capacityType': string)
    requires WfOffering("", sku, zone, capacityType) && WfOffering(group', sku', zone', capacityType')
    requires WHOLE_FAMILY_BLOCKED <= CpuCount(sku')
    ensures var scope' := CapacityReservationGroupScope(group');
      IsUnavailable(MarkUnavailable(s, UNRESERVED, sku, zone, capacityType, ttl), scope', sku', zone', capacityType')
      <==> || IsUnavailable(s, scope', sku', zone', capacityType')
           || (scope' == UNRESERVED && sku'.name == sku.name && zone' == zone && capacityType' == capacityType)
           || (&& sku.family != "" && CpuCount(sku') >= CpuCount(sku)
               && SameFamily(UNRESERVED, sku, zone, capacityType, scope', sku', zone', capacityType'))
  {
    var scope' := CapacityReservationGroupScope(group');
    ScopeIsColonFree(group');
    var k := Offering(UNRESERVED, sku.name, zone, capacityType);
    var s1 := PutSingle(s, PrintSingle(k), ttl);
    PutSingleAddsOne(s, k, ttl, SkuZone(sku'.name, zone'));
    PutSingleAddsOne(s, k, ttl, AllSpot);
    PutSingleAddsOne(s, k, ttl, Offering(scope', sku'.name, zone', capacityType'));
    MarkFamilyAtBlocks(s1, UNRESERVED, sku, zone, capacityType, CpuCount(sku), ttl, scope', sku', zone', capacityType');
  }

  /** The same mark inside a group changes the answer for that one offering of that group, nothing else. */
  lemma MarkInGroupExactly(s: State, group: string, sku: Sku, zone: string, capacityType: string, ttl: int,
                           group': string, sku': Sku, zone': string, capacityType': string)
    requires CapacityReservationGroupScope(group) != UNRESERVED
    requires WfOffering(group, sku, zone, capacityType) && WfOffering(group', sku', zone', capacityType')
    ensures var scope, scope' := CapacityReservationGroupScope(group), CapacityReservationGroupScope(group');
      IsUnavailable(MarkUnavailable(s, scope, sku, zone, capacityType, ttl), scope', sku', zone', capacityType')
      <==> || IsUnavailable(s, scope', sku', zone', capacityType')
           || (scope' == scope && sku'.name == sku.name && zone' == zone && capacityType' == capacityType)
  {
    var scope, scope' := CapacityReservationGroupScope(group), CapacityReservationGroupScope(group');
    ScopeIsColonFree(group);
    ScopeIsColonFree(group');
    var k := Offering(scope, sku.name, zone, capacityType);
    PutSingleAddsOne(s, k, ttl, SkuZone(sku'.name, zone'));
    PutSingleAddsOne(s, k, ttl, AllSpot);
    PutSingleAddsOne(s, k, ttl, Offering(scope', sku'.name, zone', capacityType'));
  }

  /** Blocking a whole family blocks every size of it in that scope, zone and capacity type, nothing else. */
  lemma MarkWholeFamilyExactly(s: State, group: string, sku: Sku, zone: string, capacityType: string, ttl: int,
                               group': string, sku': Sku, zone': string, capacityType': string)
    requires WfOffering(group, sku, zone, capacityType) && WfOffering(group', sku', zone', capacityType')
    requires WHOLE_FAMILY_BLOCKED <= CpuCount(sku')
    ensures var scope, scope' := CapacityReservationGroupScope(group), CapacityReservationGroupScope(group');
      IsUnavailable(MarkFamilyUnavailable(s, scope, sku, zone, capacityType, ttl), scope', sku', zone', capacityType')
      <==> || IsUnavailable(s, scope', sku', zone', capacityType')
           || (sku.family != "" && SameFamily(scope, sku, zone, capacityType, scope', sku', zone', capacityType'))
  {
    var scope, scope' := CapacityReservationGroupScope(group), CapacityReservationGroupScope(group');
    ScopeIsColonFree(group);
    ScopeIsColonFree(group');
    MarkFamilyAtBlocks(s, scope, sku, zone, capacityType, WHOLE_FAMILY_BLOCKED, ttl, scope', sku', zone', capacityType');
  }

  /** A SKU-zone mark covers that SKU and zone in every scope and capacity type, nothing else. */
  lemma MarkSkuZoneExactly(s: State, name: string, zone: string, ttl: int,
                           group': string, sku': Sku, zone': string, capacityType': string)
    requires Free(name, ':') && Free(zone, ':') && WfOffering(group', sku', zone', capacityType')
    ensures var scope' := CapacityReservationGroupScope(group');
      IsUnavailable(MarkSkuZoneUnavailable(s, name, zone, ttl), scope', sku', zone', capacityType')
      <==> IsUnavailable(s, scope', sku', zone', capacityType') || (sku'.name == name && zone' == zone)
  {
    var scope' := CapacityReservationGroupScope(group');
    ScopeIsColonFree(group');
    PutSingleAddsOne(s, SkuZone(name, zone), ttl, SkuZone(sku'.name, zone'));
    PutSingleAddsOne(s, SkuZone(name, zone), ttl, AllSpot);
    PutSingleAddsOne(s, SkuZone(name, zone), ttl, Offering(scope', sku'.name, zone', capacityType'));
  }

  /** A spot mark makes every spot offering of every scope unavailable, nothing else. */
  lemma MarkSpotExactly(s: State, ttl: int, group': string, sku': Sku, zone': string, capacityType': string)
    requires WfOffering(group', sku', zone', capacityType')
    ensures var scope' := CapacityReservationGroupScope(group');
      IsUnavailable(MarkSpotUnavailable(s, ttl), scope', sku', zone', capacityType')
      <==> IsUnavailable(s, scope', sku', zone', capacityType') || capacityType' == SPOT
  {
    var scope' := CapacityReservationGroupScope(group');
    ScopeIsColonFree(group');
    PutSingleAddsOne(s, AllSpot, ttl, SkuZone(sku'.name, zone'));
    PutSingleAddsOne(s, AllSpot, ttl, Offering(scope', sku'.name, zone', capacityType'));
  }

  /**
   Invalidating a group removes exactly its live entries and reports one change for each.
   */
  lemma InvalidateRemovesExactly(s: State, id: string, k: SingleKey, f: FamilyKey)
    requires Free(id, ':') && CapacityReservationGroupScope(id) != UNRESERVED
    requires WfSingle(k) && WfFamily(f)
    ensures var t := Invalidate(s, id);
      && (PrintSingle(k) in t.single <==>
            && PrintSingle(k) in s.single
            && !(SingleLive(s, PrintSingle(k)) && k.Offering? && k.scope == CapacityReservationGroupScope(id)))
      && (PrintFamily(f) in t.family <==>
            && PrintFamily(f) in s.family
            && !(Live(s.family, PrintFamily(f), s.now) && ToLower(f.scope) == CapacityReservationGroupScope(id)))
      && Changes(t) == Changes(s) + (|s.single| - |t.single|) + (|s.family| - |t.family|)
  {
    var scope := CapacityReservationGroupScope(id);
    ScopeIsColonFree(id);
    GroupPrefixMatchesSingle(k, scope);
    GroupPrefixMatchesFamily(f, scope);
    var t := Invalidate(s, id);
    RemovedCount(s.single, GroupItems(s.single, GroupPrefix(scope), s.now));
    RemovedCount(s.family, GroupItems(s.family, GroupPrefix(scope), s.now));
  }

  lemma RemovedCount<V>(m: Cache<V>, gone: set<string>)
    requires gone <= m.Keys
    ensures |m - gone| == |m| - |gone|
  {
    assert (m - gone).Keys == m.Keys - gone;
    assert |m| == |m.Keys| && |m - gone| == |(m - gone).Keys|;
  }

  /**
   After the invalidation the group's offerings are unavailable only through SKU-zone and
   spot marks; every other scope answers as before.
   */
  lemma InvalidateExactly(s: State, id: string, group': string, sku': Sku, zone': string, capacityType': string)
    requires Free(id, ':') && CapacityReservationGroupScope(id) != UNRESERVED
    requires WfOffering(group', sku', zone', capacityType')
    ensures var scope' := CapacityReservationGroupScope(group');
      IsUnavailable(Invalidate(s, id), scope', sku', zone', capacityType')
      <==> if scope' != CapacityReservationGroupScope(id) then IsUnavailable(s, scope', sku', zone', capacityType')
           else SingleLive(s, SkuZoneKey(sku'.name, zone')) || (capacityType' == SPOT && SingleLive(s, SpotKey()))
  {
    var scope, scope' := CapacityReservationGroupScope(id), CapacityReservationGroupScope(group');
    ScopeIsColonFree(id);
    ScopeIsColonFree(group');
    GroupPrefixMatchesSingle(SkuZone(sku'.name, zone'), scope);
    GroupPrefixMatchesSingle(AllSpot, scope);
    GroupPrefixMatchesSingle(Offering(scope', sku'.name, zone', capacityType'), scope);
    GroupPrefixMatchesFamily(Family(scope', sku'.family, zone', capacityType'), scope);
  }

  /** A colon in a name breaks the bookkeeping: marking one offering marks another. */
  lemma ColonsCollide(s: State, ttl: int)
    ensures var marked, other := Sku("a:b", "f", Some(4)), Sku("a", "g", Some(4));
      IsUnavailable(MarkUnavailable(s, UNRESERVED, marked, "c", "on-demand", ttl), UNRESERVED, other, "b:c", "on-demand")
  {
    assert SingleInstanceKey(UNRESERVED, "a:b", "c", "on-demand") == "on-demand:a:b:c";
    assert SingleInstanceKey(UNRESERVED, "a", "b:c", "on-demand") == "on-demand:a:b:c";
  }

  // ----- The environment -----

  /** A janitor removes exactly the expired entries of its cache and reports each once. */
  lemma SweepRemovesExactly(s: State, key: string)
    ensures var t := Apply(s, JanitorSingle);
      && (key in t.single <==> key in s.single && !Expired(s.single[key].expiry, s.now))
      && (key in t.single ==> t.single[key] == s.single[key]) && t.family == s.family
      && t.owed == s.owed + |ExpiredKeys(s.single, s.now)| && t.seqNum == s.seqNum
    ensures var t := Apply(s, JanitorFamily);
      && (key in t.family <==> key in s.family && !Expired(s.family[key].expiry, s.now))
      && (key in t.family ==> t.family[key] == s.family[key]) && t.single == s.single
      && t.owed == s.owed + |ExpiredKeys(s.family, s.now)| && t.seqNum == s.seqNum
  {
  }

  /** A mark reports at most one change, a flush exactly one; time passing and additions report none. */
  lemma StepReports(s: State, step: Step)
    requires Enabled(s, step)
    ensures step.MarkOffering? || step.MarkFamily? || step.MarkSpot? || step.MarkSkuZone? ==> 0 <= Changes(Apply(s, step)) - Changes(s) <= 1
    ensures step.FlushAll? ==> Changes(Apply(s, step)) == Changes(s) + 1
    ensures step.Tick? || step.Publish? ==> Changes(Apply(s, step)) == Changes(s)
  {
  }
}
