/**
 The cache object itself. Its methods update the fields the way the source does. A ghost
 history records the steps taken; every method keeps the fields equal to the state that
 history leads to, and reads are specified by the history alone.
 */
module UnavailableOfferingsCache {
  import opened TtlCache
  import opened OfferingKeys
  import opened OfferingsModel
  import opened OfferingsHistory
  import opened OfferingsLifetimes
  import opened Text

  /**
   Deletes the listed entries that carry the group's prefix, one by one. Every deletion
   fires the eviction callback once; `evicted` counts the calls.
   */
  method DeleteGroup<V>(m: Cache<V>, prefix: string, now: int) returns (left: Cache<V>, evicted: nat)
    ensures left == m - GroupItems(m, prefix, now)
    ensures evicted == |GroupItems(m, prefix, now)|
  {
    ghost var group := GroupItems(m, prefix, now);
    ghost var done: set<string> := {};
    left, evicted := m, 0;
    var todo := Items(m, now);
    while todo != {}
      invariant todo <= Items(m, now)
      invariant done !! todo
      invariant forall key :: key in group <==> key in done || (key in todo && HasPrefix(key, prefix))
      invariant left == m - done
      invariant evicted == |done|
    {
      var key :| key in todo;
      if HasPrefix(key, prefix) {
        done := done + {key};
        left, evicted := left - {key}, evicted + 1;
      }
      todo := todo - {key};
    }
    assert done == group;
  }

  class UnavailableOfferings {
    const config: Config
    var singleOfferingCache: Cache<()>
    var vmFamilyCache: Cache<int>
    var seqNum: nat
    var clock: int
    ghost const start: int
    ghost var history: seq<Step>

    constructor (config: Config, clock: int)
      ensures Valid() && history == [] && this.config == config && this.clock == start == clock
    {
      this.config := config;
      this.clock := clock;
      this.start := clock;
      singleOfferingCache, vmFamilyCache, seqNum, history := map[], map[], 0, [];
    }

    ghost function Initial(): State {
      State(config, map[], map[], start, 0, 0)
    }

    /** The fields are what the history leads to. */
    ghost predicate Valid()
      reads this
    {
      IsRun(Initial(), history) && Abstract() == Run(Initial(), history)
    }

    ghost function Abstract(): State
      reads this
    {
      State(config, singleOfferingCache, vmFamilyCache, clock, seqNum, 0)
    }

    method ReadSeqNum() returns (n: nat)
      ensures n == seqNum % 0x1_0000_0000_0000_0000 && n == SeqNum(Abstract())
    {
      n := seqNum % TWO_64;
    }

    /**
     Unavailable is what some mark of the history still holds, for every well-formed offering
     and history; scopes are lower-case because views make them so.
     */
    method ReadUnavailable(scope: string, sku: Sku, zone: string, capacityType: string) returns (found: bool)
      requires Valid() && ToLower(scope) == scope
      ensures found == IsUnavailable(Abstract(), scope, sku, zone, capacityType)
      ensures WfSteps(history) && WfOffering(scope, sku, zone, capacityType) && WHOLE_FAMILY_BLOCKED <= CpuCount(sku) ==>
        found == Blocked(config, start, history, scope, sku, zone, capacityType)
    {
      if WfSteps(history) && WfOffering(scope, sku, zone, capacityType) && WHOLE_FAMILY_BLOCKED <= CpuCount(sku) {
        UnavailableExactly(Initial(), history, scope, sku, zone, capacityType);
      }
      found := Look(scope, sku, zone, capacityType);
    }

    method Look(scope: string, sku: Sku, zone: string, capacityType: string) returns (found: bool)
      ensures found == IsUnavailable(Abstract(), scope, sku, zone, capacityType)
    {
      if Live(singleOfferingCache, SkuZoneKey(sku.name, zone), clock) {
        return true;
      }
      // Spot is never reserved, so it is recorded and read unscoped.
      if capacityType == SPOT {
        if Live(singleOfferingCache, SpotKey(), clock) {
          return true;
        }
      }
      var family := ReadFamilyUnavailable(scope, sku, zone, capacityType);
      if family {
        return true;
      }
      found := Live(singleOfferingCache, SingleInstanceKey(scope, sku.name, zone, capacityType), clock);
    }

    method ReadFamilyUnavailable(scope: string, sku: Sku, zone: string, capacityType: string) returns (found: bool)
      ensures found == IsFamilyUnavailable(Abstract(), scope, sku, zone, capacityType)
    {
      var cpuCount := if sku.vcpu.Some? then sku.vcpu.value else 0;
      var key := VmFamilyKey(scope, sku.family, zone, capacityType);
      if Live(vmFamilyCache, key, clock) {
        var blocked := vmFamilyCache[key].value;
        if blocked == WHOLE_FAMILY_BLOCKED {
          return true;
        }
        return cpuCount >= blocked;
      }
      return false;
    }

    method MarkFamilyAtCpuCount(scope: string, sku: Sku, zone: string, capacityType: string, cpuCount: int, ttl: int)
      returns (changed: bool)
      modifies this`vmFamilyCache
      ensures Abstract() == MarkFamilyAt(old(Abstract()), scope, sku, zone, capacityType, cpuCount, ttl)
      ensures changed == FamilyChanges(old(Abstract()), scope, sku, zone, capacityType, cpuCount)
    {
      if sku.family == "" {
        return false;
      }
      var key := VmFamilyKey(scope, sku.family, zone, capacityType);
      changed := true;
      var limit := cpuCount;
      if Live(vmFamilyCache, key, clock) {
        var current := vmFamilyCache[key].value;
        if current <= limit {
          limit := current;
          changed := false;
        }
      }
      // Set even when nothing changes, to extend the entry's TTL.
      vmFamilyCache := vmFamilyCache[key := Entry(limit, ExpiryFor(ttl, config.familyTtl, clock))];
    }

    method MarkWholeFamily(scope: string, sku: Sku, zone: string, capacityType: string, ttl: int)
      requires Valid() && ToLower(scope) == scope
      modifies this`vmFamilyCache, this`seqNum, this`history
      ensures Valid() && history == old(history) + CallOf(old(Abstract()), MarkFamily(scope, sku, zone, capacityType, ttl))
      ensures Abstract() == Settle(MarkFamilyUnavailable(old(Abstract()), scope, sku, zone, capacityType, ttl))
    {
      CallExtendsRun(Initial(), history, MarkFamily(scope, sku, zone, capacityType, ttl));
      history := history + CallOf(Abstract(), MarkFamily(scope, sku, zone, capacityType, ttl));
      var changed := MarkFamilyAtCpuCount(scope, sku, zone, capacityType, WHOLE_FAMILY_BLOCKED, ttl);
      if changed {
        seqNum := seqNum + 1;
      }
    }

    method MarkSpotWithTTL(ttl: int)
      requires Valid()
      modifies this`singleOfferingCache, this`seqNum, this`history
      ensures Valid() && history == old(history) + CallOf(old(Abstract()), MarkSpot(ttl))
      ensures Abstract() == Settle(MarkSpotUnavailable(old(Abstract()), ttl))
    {
      CallExtendsRun(Initial(), history, MarkSpot(ttl));
      history := history + CallOf(Abstract(), MarkSpot(ttl));
      var wasUnavailable := Live(singleOfferingCache, SpotKey(), clock);
      singleOfferingCache := singleOfferingCache[SpotKey() := Entry((), ExpiryFor(ttl, config.singleTtl, clock))];
      if !wasUnavailable {
        seqNum := seqNum + 1;
      }
    }

    method MarkSkuZoneWithTTL(name: string, zone: string, ttl: int)
      requires Valid()
      modifies this`singleOfferingCache, this`seqNum, this`history
      ensures Valid() && history == old(history) + CallOf(old(Abstract()), MarkSkuZone(name, zone, ttl))
      ensures Abstract() == Settle(MarkSkuZoneUnavailable(old(Abstract()), name, zone, ttl))
    {
      CallExtendsRun(Initial(), history, MarkSkuZone(name, zone, ttl));
      history := history + CallOf(Abstract(), MarkSkuZone(name, zone, ttl));
      var key := SkuZoneKey(name, zone);
      var wasUnavailable := Live(singleOfferingCache, key, clock);
      singleOfferingCache := singleOfferingCache[key := Entry((), ExpiryFor(ttl, config.singleTtl, clock))];
      if !wasUnavailable {
        seqNum := seqNum + 1;
      }
    }

    method MarkOfferingWithTTL(scope: string, sku: Sku, zone: string, capacityType: string, ttl: int)
      requires Valid() && ToLower(scope) == scope
      modifies this`singleOfferingCache, this`vmFamilyCache, this`seqNum, this`history
      ensures Valid() && history == old(history) + CallOf(old(Abstract()), MarkOffering(scope, sku, zone, capacityType, ttl))
      ensures Abstract() == Settle(MarkUnavailable(old(Abstract()), scope, sku, zone, capacityType, ttl))
    {
      CallExtendsRun(Initial(), history, MarkOffering(scope, sku, zone, capacityType, ttl));
      history := history + CallOf(Abstract(), MarkOffering(scope, sku, zone, capacityType, ttl));
      var wasUnavailable := Look(scope, sku, zone, capacityType);
      var key := SingleInstanceKey(scope, sku.name, zone, capacityType);
      singleOfferingCache := singleOfferingCache[key := Entry((), ExpiryFor(ttl, config.singleTtl, clock))];
      // Widening to larger sizes is a guess that holds outside capacity reservation groups only.
      var familyChanged := false;
      if scope == UNRESERVED {
        var cpuCount := if sku.vcpu.Some? then sku.vcpu.value else 0;
        familyChanged := MarkFamilyAtCpuCount(scope, sku, zone, capacityType, cpuCount, ttl);
      }
      if !wasUnavailable || familyChanged {
        seqNum := seqNum + 1;
      }
    }

    method FlushCaches()
      requires Valid()
      modifies this`singleOfferingCache, this`vmFamilyCache, this`seqNum, this`history
      ensures Valid() && history == old(history) + CallOf(old(Abstract()), FlushAll)
      ensures Abstract() == Settle(Flush(old(Abstract())))
    {
      CallExtendsRun(Initial(), history, FlushAll);
      history := history + CallOf(Abstract(), FlushAll);
      singleOfferingCache := map[];
      vmFamilyCache := map[];
      seqNum := seqNum + 1;
    }

    method InvalidateCapacityReservationGroup(id: string)
      requires Valid()
      modifies this`singleOfferingCache, this`vmFamilyCache, this`seqNum, this`history
      ensures Valid() && history == old(history) + CallOf(old(Abstract()), InvalidateGroup(id))
      ensures Abstract() == Settle(Invalidate(old(Abstract()), id))
    {
      CallExtendsRun(Initial(), history, InvalidateGroup(id));
      history := history + CallOf(Abstract(), InvalidateGroup(id));
      var scope := CapacityReservationGroupScope(id);
      if scope == UNRESERVED {
        return;
      }
      var prefix := GroupPrefix(scope);
      var one, evictedSingle := DeleteGroup(singleOfferingCache, prefix, clock);
      singleOfferingCache, seqNum := one, seqNum + evictedSingle;
      var fam, evictedFamily := DeleteGroup(vmFamilyCache, prefix, clock);
      vmFamilyCache, seqNum := fam, seqNum + evictedFamily;
    }

    /** The janitor of the single-offering cache; the eviction callback adds to the counter. */
    method DeleteExpiredSingle()
      requires Valid()
      modifies this`singleOfferingCache, this`seqNum, this`history
      ensures Valid() && history == old(history) + CallOf(old(Abstract()), JanitorSingle)
      ensures Abstract() == Settle(SweepSingle(old(Abstract())))
    {
      CallExtendsRun(Initial(), history, JanitorSingle);
      history := history + CallOf(Abstract(), JanitorSingle);
      var gone := ExpiredKeys(singleOfferingCache, clock);
      singleOfferingCache := singleOfferingCache - gone;
      seqNum := seqNum + |gone|;
    }

    /** The janitor of the family cache. */
    method DeleteExpiredFamily()
      requires Valid()
      modifies this`vmFamilyCache, this`seqNum, this`history
      ensures Valid() && history == old(history) + CallOf(old(Abstract()), JanitorFamily)
      ensures Abstract() == Settle(SweepFamily(old(Abstract())))
    {
      CallExtendsRun(Initial(), history, JanitorFamily);
      history := history + CallOf(Abstract(), JanitorFamily);
      var gone := ExpiredKeys(vmFamilyCache, clock);
      vmFamilyCache := vmFamilyCache - gone;
      seqNum := seqNum + |gone|;
    }

    /** Time passing. */
    method Elapse(elapsed: nat)
      requires Valid()
      modifies this`clock, this`history
      ensures Valid() && history == old(history) + [Tick(elapsed)]
      ensures Abstract() == old(Abstract()).(now := old(clock) + elapsed)
    {
      RunAppend(Initial(), history, Tick(elapsed));
      history := history + [Tick(elapsed)];
      clock := clock + elapsed;
    }
  }

  /** A view of the cache namespaced to one group; an empty id yields the unreserved view. */
  class CapacityReservationGroupView {
    const offerings: UnavailableOfferings
    const scope: string
    ghost const id: string

    /** Scopes are lower-cased ids. */
    ghost predicate Valid()
      reads offerings
    {
      scope == CapacityReservationGroupScope(id) && offerings.Valid()
    }

    constructor (offerings: UnavailableOfferings, id: string)
      requires offerings.Valid()
      ensures Valid() && this.offerings == offerings && this.id == id
    {
      this.offerings := offerings;
      this.id := id;
      scope := CapacityReservationGroupScope(id);
    }

    method ReadUnavailable(sku: Sku, zone: string, capacityType: string) returns (found: bool)
      requires Valid()
      ensures WfSteps(offerings.history) && WfOffering(id, sku, zone, capacityType) && WHOLE_FAMILY_BLOCKED <= CpuCount(sku) ==>
        found == Blocked(offerings.config, offerings.start, offerings.history, id, sku, zone, capacityType)
    {
      ToLowerIdempotent(id);
      if Free(id, ':') {
        ToLowerKeepsFree(id, ':');
      }
      assert SingleKeyOf(scope, sku, zone, capacityType) == SingleKeyOf(id, sku, zone, capacityType);
      assert FamilyKeyOf(scope, sku, zone, capacityType) == FamilyKeyOf(id, sku, zone, capacityType);
      found := offerings.ReadUnavailable(scope, sku, zone, capacityType);
    }

    method MarkOfferingWithTTL(sku: Sku, zone: string, capacityType: string, ttl: int)
      requires Valid()
      modifies offerings
      ensures Valid()
      ensures offerings.history == old(offerings.history) + CallOf(old(offerings.Abstract()), MarkOffering(scope, sku, zone, capacityType, ttl))
    {
      ToLowerIdempotent(id);
      offerings.MarkOfferingWithTTL(scope, sku, zone, capacityType, ttl);
    }

    method MarkWholeFamily(sku: Sku, zone: string, capacityType: string, ttl: int)
      requires Valid()
      modifies offerings
      ensures Valid()
      ensures offerings.history == old(offerings.history) + CallOf(old(offerings.Abstract()), MarkFamily(scope, sku, zone, capacityType, ttl))
    {
      ToLowerIdempotent(id);
      offerings.MarkWholeFamily(scope, sku, zone, capacityType, ttl);
    }

    /** Spot cannot consume a reservation, so a spot shortage is always recorded unscoped. */
    method MarkSpotWithTTL(ttl: int)
      requires Valid()
      modifies offerings
      ensures Valid()
      ensures offerings.history == old(offerings.history) + CallOf(old(offerings.Abstract()), MarkSpot(ttl))
    {
      offerings.MarkSpotWithTTL(ttl);
    }
  }
}
