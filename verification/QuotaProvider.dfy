/**
 The quota provider object. Its methods run under the provider's lock and are proved to take
 the steps of `QuotaModel`.
 */
module QuotaProvider {
  import opened TtlCache
  import opened QuotaModel

  lemma TotalsAdd(a: map<string, Adjustment>, key: string, x: Adjustment)
    requires key !in a
    ensures Totals(a[key := x]) == Totals(a)[x.quotaName := Get(Totals(a), x.quotaName) + x.vCpus]
  {
    var b := a[key := x];
    assert QuotaNames(b) == QuotaNames(a) + {x.quotaName} by {
      assert b[key] == x;
      assert forall k :: k in a ==> b[k] == a[k];
    }
    forall q | q in QuotaNames(b) ensures Total(b, q) == Total(a, q) + if q == x.quotaName then x.vCpus else 0 {
      TotalAdd(a, key, x, q);
    }
    TotalsBalanced(a, 0);
    assert Get(Ledger(a, Totals(a), 0).byQuota, x.quotaName) == Total(a, x.quotaName);
  }

  /** Keeps what was recorded after the watermark and totals it up. */
  method Survivors(adjustments: map<string, Adjustment>, watermark: nat)
    returns (kept: map<string, Adjustment>, byQuota: map<string, int>)
    ensures kept == Surviving(adjustments, watermark) && byQuota == Totals(kept)
  {
    kept, byQuota := map[], map[];
    var todo := adjustments.Keys;
    while todo != {}
      invariant todo <= adjustments.Keys
      invariant kept == map k | k in adjustments && k !in todo && adjustments[k].seqNum > watermark :: adjustments[k]
      invariant byQuota == Totals(kept)
    {
      var key :| key in todo;
      var pending := adjustments[key];
      todo := todo - {key};
      if pending.seqNum <= watermark {
        continue;
      }
      TotalsAdd(kept, key, pending);
      kept := kept[key := pending];
      byQuota := byQuota[pending.quotaName := Get(byQuota, pending.quotaName) + pending.vCpus];
    }
  }

  method DropExpired(lastSeen: map<string, int>, now: int) returns (left: map<string, int>)
    ensures left == map k | k in lastSeen && now - lastSeen[k] <= TOMBSTONE_TTL :: lastSeen[k]
  {
    left := lastSeen;
    var todo := lastSeen.Keys;
    while todo != {}
      invariant todo <= lastSeen.Keys
      invariant left == map k | k in lastSeen && (k in todo || now - lastSeen[k] <= TOMBSTONE_TTL) :: lastSeen[k]
    {
      var key :| key in todo;
      if now - lastSeen[key] > TOMBSTONE_TTL {
        left := left - {key};
      }
      todo := todo - {key};
    }
  }

  method FindOldest(lastSeen: map<string, int>) returns (oldest: string)
    requires lastSeen != map[]
    ensures IsOldest(lastSeen, oldest)
  {
    var todo := lastSeen.Keys;
    assert todo != {};
    oldest :| oldest in todo;
    todo := todo - {oldest};
    while todo != {}
      invariant oldest in lastSeen && todo <= lastSeen.Keys
      invariant forall k :: k in lastSeen && k !in todo ==> lastSeen[oldest] <= lastSeen[k]
    {
      var key :| key in todo;
      if lastSeen[key] < lastSeen[oldest] {
        oldest := key;
      }
      todo := todo - {key};
    }
  }

  class Provider {
    var usages: map<string, Option<Usage>>
    var familyToQuota: map<string, string>
    var initialized: bool
    var snapshotGeneration: nat
    var seqNum: nat
    var refreshInProgress: bool
    var adjustments: map<string, Adjustment>
    var adjustmentsByQuotaName: map<string, int>
    var deleteTombstones: map<string, int>
    var lastCleanup: Option<int>
    ghost var flight: Option<nat>

    ghost function Abstract(): State
      reads this
    {
      State(usages, familyToQuota, initialized, snapshotGeneration, refreshInProgress,
            Ledger(adjustments, adjustmentsByQuotaName, seqNum), Graves(deleteTombstones, lastCleanup), flight)
    }

    constructor ()
      ensures Abstract() == Init()
    {
      usages, familyToQuota, initialized, snapshotGeneration, seqNum := map[], map[], false, 0, 0;
      refreshInProgress, adjustments, adjustmentsByQuotaName, deleteTombstones := false, map[], map[], map[];
      lastCleanup, flight := None, None;
    }

    method PruneTombstones(now: int)
      modifies this`deleteTombstones, this`lastCleanup
      ensures Abstract() == old(Abstract()).(graves := Prune(old(Abstract()).graves, now))
    {
      if lastCleanup.Some? && now - lastCleanup.value < CLEANUP_INTERVAL {
        return;
      }
      deleteTombstones := DropExpired(deleteTombstones, now);
      lastCleanup := Some(now);
    }

    method BeginRefreshAt(now: int) returns (watermark: nat)
      requires flight.None?
      modifies this
      ensures Abstract() == BeginRefresh(old(Abstract()), now) && flight == Some(watermark)
    {
      PruneTombstones(now);
      refreshInProgress := true;
      flight := Some(seqNum);
      watermark := seqNum;
    }

    method FinishFailedRefresh()
      requires flight.Some?
      modifies this`refreshInProgress, this`flight
      ensures Abstract() == FailRefresh(old(Abstract()))
    {
      refreshInProgress := false;
      flight := None;
    }

    method PublishSnapshot(freshUsages: map<string, Option<Usage>>, freshFamilies: map<string, string>, watermark: nat)
      requires flight == Some(watermark)
      modifies this
      ensures Abstract() == Publish(old(Abstract()), freshUsages, freshFamilies)
    {
      usages, familyToQuota := freshUsages, freshFamilies;
      initialized := true;
      snapshotGeneration := snapshotGeneration + 1;
      seqNum := seqNum + 1;
      adjustments, adjustmentsByQuotaName := Survivors(adjustments, watermark);
      refreshInProgress := false;
      flight := None;
    }

    method Create(expectedGeneration: nat, key: string, family: string, vCpus: int) returns (recorded: bool)
      modifies this
      ensures Abstract() == RecordCreate(old(Abstract()), expectedGeneration, key, family, vCpus)
      ensures var q := if family in old(familyToQuota) then old(familyToQuota)[family] else family;
        && (recorded <==>
              && old(initialized) && !old(refreshInProgress) && expectedGeneration == old(snapshotGeneration) && vCpus > 0
              && q in old(usages) && old(usages)[q].Some? && old(usages)[q].value.limit.Some? && old(usages)[q].value.current.Some?
              && key !in old(adjustments))
        && (recorded ==>
              && adjustments == old(adjustments)[key := Adjustment(q, vCpus, old(seqNum) + 1)]
              && adjustmentsByQuotaName == old(adjustmentsByQuotaName)[q := Get(old(adjustmentsByQuotaName), q) + vCpus])
      ensures !recorded ==> unchanged(this)
    {
      if !initialized || refreshInProgress || expectedGeneration != snapshotGeneration || vCpus <= 0 {
        return false;
      }
      var quotaName := QuotaNameFor(family);
      if !HasUsableUsage(quotaName) {
        return false;
      }
      if key in adjustments {
        return false;
      }
      deleteTombstones := deleteTombstones - {key};
      seqNum := seqNum + 1;
      adjustments := adjustments[key := Adjustment(quotaName, vCpus, seqNum)];
      adjustmentsByQuotaName := adjustmentsByQuotaName[quotaName := Get(adjustmentsByQuotaName, quotaName) + vCpus];
      return true;
    }

    /** `victim` reports which tombstone was evicted, when the set was full. */
    method Delete(key: string, family: string, vCpus: int, now: int) returns (changed: bool, victim: string)
      modifies this
      ensures Abstract() == RecordDelete(old(Abstract()), key, family, vCpus, now, victim)
      ensures VictimIsOldest(old(Abstract()), key, family, vCpus, now, victim)
      ensures var q := if family in old(familyToQuota) then old(familyToQuota)[family] else family;
        changed <==>
          && old(initialized) && vCpus > 0
          && q in old(usages) && old(usages)[q].Some? && old(usages)[q].value.limit.Some? && old(usages)[q].value.current.Some?
          && !(key in old(deleteTombstones) && now - old(deleteTombstones)[key] <= 1500)
          && !(key in old(adjustments) && old(adjustments)[key].vCpus < 0)
      ensures seqNum == old(seqNum) + if changed then 1 else 0
    {
      victim := key;
      PruneKeepsRecent(Abstract().graves, key, now);
      PruneTombstones(now);
      if !initialized || vCpus <= 0 {
        return false, victim;
      }
      var quotaName := QuotaNameFor(family);
      if !HasUsableUsage(quotaName) {
        return false, victim;
      }
      var duplicate;
      duplicate, victim := NoteDeletion(key, now);
      if duplicate {
        return false, victim;
      }
      changed := AdjustForDelete(key, quotaName, vCpus);
    }

    /** First half of a delete: a recent tombstone makes it a duplicate, otherwise a new one is set. */
    method NoteDeletion(key: string, now: int) returns (duplicate: bool, victim: string)
      modifies this`deleteTombstones
      ensures duplicate == Suppressed(old(Abstract()).graves, key, now)
      ensures var g := old(Abstract()).graves;
        Abstract() == old(Abstract()).(graves :=
          if duplicate then g.(lastSeen := g.lastSeen[key := now])
          else Bury(g.(lastSeen := g.lastSeen - {key}), key, now, victim))
      ensures !duplicate && |old(deleteTombstones) - {key}| >= MAX_TOMBSTONES ==> IsOldest(old(deleteTombstones) - {key}, victim)
    {
      victim := key;
      if key in deleteTombstones {
        if now - deleteTombstones[key] > TOMBSTONE_TTL {
          deleteTombstones := deleteTombstones - {key};
        } else {
          deleteTombstones := deleteTombstones[key := now];
          return true, victim;
        }
      }
      assert deleteTombstones == old(deleteTombstones) - {key};
      duplicate := false;
      victim := InsertTombstone(key, now);
    }

    /** The second half of a delete: the instance's own adjustment and the totals. */
    method AdjustForDelete(key: string, quotaName: string, vCpus: int) returns (changed: bool)
      modifies this`adjustments, this`adjustmentsByQuotaName, this`seqNum
      ensures Abstract() == old(Abstract()).(ledger := EnterDelete(old(Abstract()).ledger, key, quotaName, vCpus, refreshInProgress))
      ensures changed <==> !(key in old(adjustments) && old(adjustments)[key].vCpus < 0)
      ensures seqNum == old(seqNum) + if changed then 1 else 0
    {
      if key in adjustments {
        var existing := adjustments[key];
        if existing.vCpus < 0 {
          return false;
        }
        adjustmentsByQuotaName :=
          adjustmentsByQuotaName[existing.quotaName := Get(adjustmentsByQuotaName, existing.quotaName) - existing.vCpus];
        adjustments := adjustments - {key};
        seqNum := seqNum + 1;
        if refreshInProgress {
          adjustments := adjustments[key := Adjustment(quotaName, -vCpus, seqNum)];
          adjustmentsByQuotaName := adjustmentsByQuotaName[quotaName := Get(adjustmentsByQuotaName, quotaName) - vCpus];
        }
        return true;
      }
      seqNum := seqNum + 1;
      adjustments := adjustments[key := Adjustment(quotaName, -vCpus, seqNum)];
      adjustmentsByQuotaName := adjustmentsByQuotaName[quotaName := Get(adjustmentsByQuotaName, quotaName) - vCpus];
      return true;
    }

    method InsertTombstone(key: string, now: int) returns (victim: string)
      modifies this`deleteTombstones
      ensures Abstract() == old(Abstract()).(graves := Bury(old(Abstract()).graves, key, now, victim))
      ensures |old(deleteTombstones)| >= MAX_TOMBSTONES ==> IsOldest(old(deleteTombstones), victim)
    {
      victim := key;
      if |deleteTombstones| >= MAX_TOMBSTONES {
        victim := FindOldest(deleteTombstones);
        deleteTombstones := deleteTombstones - {victim};
      }
      deleteTombstones := deleteTombstones[key := now];
    }

    method ResetAll()
      modifies this
      ensures Abstract() == Reset(old(Abstract()))
    {
      if !initialized && usages == map[] && familyToQuota == map[] && adjustments == map[] && deleteTombstones == map[] {
        return;
      }
      usages, familyToQuota := map[], map[];
      initialized := false;
      snapshotGeneration := snapshotGeneration + 1;
      seqNum := seqNum + 1;
      refreshInProgress := false;
      adjustments, adjustmentsByQuotaName, deleteTombstones := map[], map[], map[];
      lastCleanup := None;
    }

    function QuotaNameFor(family: string): (r: string)
      reads this
      ensures r == QuotaName(Abstract(), family)
    {
      if family in familyToQuota then familyToQuota[family] else family
    }

    predicate HasUsableUsage(quotaName: string)
      reads this
      ensures HasUsableUsage(quotaName) == HasUsage(Abstract(), quotaName)
    {
      && quotaName in usages && usages[quotaName].Some?
      && usages[quotaName].value.limit.Some? && usages[quotaName].value.current.Some?
    }

    method HasQuota(family: string, vCpus: Option<int>) returns (r: bool)
      ensures r == HasQuotaFor(Abstract(), family, vCpus)
    {
      if family == "" || vCpus.None? {
        return true;
      }
      var quotaName := QuotaNameFor(family);
      if !HasUsableUsage(quotaName) {
        return true;
      }
      var used := usages[quotaName].value.current.value + Get(adjustmentsByQuotaName, quotaName);
      if used < 0 {
        used := 0;
      }
      r := vCpus.value <= usages[quotaName].value.limit.value - used;
    }
  }
}
