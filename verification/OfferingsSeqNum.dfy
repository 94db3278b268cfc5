/**
 The sequence number as a change detector, over every run of the cache.

 Between two moments with the same number of changes nothing ever goes from available to
 unavailable, and the answer for an offering differs exactly if one of its own blocking
 entries has lapsed in between and nothing else blocks it. Once the janitors have caught up
 all answers are the same.
 */
module OfferingsSeqNum {
  import opened TtlCache
  import opened OfferingKeys
  import opened OfferingsModel
  import opened Text

  /** A SKU name fixes the SKU. */
  ghost predicate Catalogued(catalog: string -> Sku, steps: seq<Step>) {
    forall i :: 0 <= i < |steps| && steps[i].MarkOffering? ==> steps[i].sku == catalog(steps[i].sku.name)
  }

  /** No expired entry is physically left in either cache. */
  predicate Swept(s: State) {
    ExpiredKeys(s.single, s.now) == {} && ExpiredKeys(s.family, s.now) == {}
  }

  /** Expired by `now` but not yet at `since`. */
  predicate Lapsed(e: Expiry, since: int, now: int) {
    e.At? && since <= e.time < now
  }

  predicate SingleLapsed(s: State, since: int, key: string) {
    key in s.single && Lapsed(s.single[key].expiry, since, s.now)
  }

  /** One of the offering's own keys holds an entry that blocks it and has lapsed since. */
  predicate LapsedEntry(s: State, since: int, scope: string, sku: Sku, zone: string, capacityType: string) {
    var family := VmFamilyKey(scope, sku.family, zone, capacityType);
    || SingleLapsed(s, since, SkuZoneKey(sku.name, zone))
    || (capacityType == SPOT && SingleLapsed(s, since, SpotKey()))
    || (&& family in s.family && Lapsed(s.family[family].expiry, since, s.now)
        && (s.family[family].value == WHOLE_FAMILY_BLOCKED || CpuCount(sku) >= s.family[family].value))
    || SingleLapsed(s, since, SingleInstanceKey(scope, sku.name, zone, capacityType))
  }

  /** The same caches read with the clock turned back. */
  function AsOf(s: State, since: int): State {
    s.(now := since)
  }

  /** What blocked the offering at an earlier time blocks it still or has lapsed since. */
  lemma TurnedBack(s: State, since: int, scope: string, sku: Sku, zone: string, capacityType: string)
    requires since <= s.now
    ensures IsUnavailable(AsOf(s, since), scope, sku, zone, capacityType)
       <==> IsUnavailable(s, scope, sku, zone, capacityType) || LapsedEntry(s, since, scope, sku, zone, capacityType)
  {
  }

  /** An entry was kept as it is, or renewed at or after the given time. */
  predicate Renewed(before: Expiry, after: Expiry, since: int) {
    after == before || !Expired(after, since)
  }

  /** Every entry of `s` is still in `t`, family thresholds unchanged; expiries may be renewed. */
  predicate Retains(s: State, t: State) {
    && s.now <= t.now
    && (forall key :: key in s.single ==> key in t.single && Renewed(s.single[key].expiry, t.single[key].expiry, s.now))
    && (forall key :: key in s.family ==>
          && key in t.family && t.family[key].value == s.family[key].value
          && Renewed(s.family[key].expiry, t.family[key].expiry, s.now))
  }

  // ----- One step -----

  lemma StepCountsUp(s: State, step: Step)
    requires Enabled(s, step)
    ensures Changes(s) <= Changes(Apply(s, step))
  {
  }

  lemma QuietStepRetains(s: State, step: Step)
    requires Enabled(s, step) && Changes(Apply(s, step)) == Changes(s)
    ensures Retains(s, Apply(s, step))
  {
    var t := Apply(s, step);
    match step
    case InvalidateGroup(g) =>
      var prefix := GroupPrefix(CapacityReservationGroupScope(g));
      if t != s {
        assert GroupItems(s.single, prefix, s.now) == {};
        assert GroupItems(s.family, prefix, s.now) == {};
      }
    case JanitorSingle =>
      assert ExpiredKeys(s.single, s.now) == {};
    case JanitorFamily =>
      assert ExpiredKeys(s.family, s.now) == {};
    case _ =>
  }

  /**
   A step that reports no change makes no offering unavailable, now or as of any earlier
   time. Ticks only turn the clock on, so reading as of `since` they change nothing.
   */
  lemma QuietStepHidesNothing(s: State, step: Step, since: int, catalog: string -> Sku,
                              group: string, sku: Sku, zone: string, capacityType: string)
    requires Enabled(s, step) && Changes(Apply(s, step)) == Changes(s) && since <= s.now
    requires WfStep(step) && Catalogued(catalog, [step])
    requires WfOffering(group, sku, zone, capacityType) && sku == catalog(sku.name)
    ensures var scope := CapacityReservationGroupScope(group);
      IsUnavailable(AsOf(Apply(s, step), since), scope, sku, zone, capacityType) ==>
      IsUnavailable(AsOf(s, since), scope, sku, zone, capacityType)
  {
    match step
    case MarkOffering(g, sku1, zone1, ct1, ttl) =>
      assert sku1 == [step][0].sku;
      QuietMarkHidesNothing(s, g, sku1, zone1, ct1, ttl, since, group, sku, zone, capacityType);
    case InvalidateGroup(_) => QuietStepRetains(s, step);
    case _ =>
  }

  /** Two offerings with the same single key are the same offering, so a quiet mark hides nothing new. */
  lemma QuietMarkHidesNothing(s: State, g: string, sku1: Sku, zone1: string, ct1: string, ttl: int, since: int,
                              group: string, sku: Sku, zone: string, capacityType: string)
    requires WfOffering(g, sku1, zone1, ct1) && WfOffering(group, sku, zone, capacityType)
    requires (sku1.name == sku.name ==> sku1 == sku) && since <= s.now
    requires Changes(MarkUnavailable(s, CapacityReservationGroupScope(g), sku1, zone1, ct1, ttl)) == Changes(s)
    ensures var scope := CapacityReservationGroupScope(group);
      IsUnavailable(AsOf(MarkUnavailable(s, CapacityReservationGroupScope(g), sku1, zone1, ct1, ttl), since), scope, sku, zone, capacityType) ==>
      IsUnavailable(AsOf(s, since), scope, sku, zone, capacityType)
  {
    ScopeIsColonFree(group);
    ScopeIsColonFree(g);
    var its := SingleKeyOf(g, sku1, zone1, ct1);
    PrintSingleInjective(SingleKeyOf(group, sku, zone, capacityType), its);
    PrintSingleInjective(SkuZone(sku.name, zone), its);
    PrintSingleInjective(AllSpot, its);
    TurnedBack(s, since, CapacityReservationGroupScope(g), sku1, zone1, ct1);
  }

  /** Repeating a mark only extends its TTL, and that is not reported. */
  lemma RepeatedMarkIsQuiet(s: State, mark: Step)
    requires mark.MarkOffering? || mark.MarkFamily? || mark.MarkSpot? || mark.MarkSkuZone?
    ensures Enabled(s, mark) && Enabled(Apply(s, mark), mark)
    ensures Changes(Apply(Apply(s, mark), mark)) == Changes(Apply(s, mark))
  {
    if mark.MarkOffering? {
      var scope := CapacityReservationGroupScope(mark.group);
      var t := Apply(s, mark);
      assert SingleLive(t, SingleInstanceKey(scope, mark.sku.name, mark.zone, mark.capacityType));
      assert scope == UNRESERVED ==> !FamilyChanges(t, scope, mark.sku, mark.zone, mark.capacityType, CpuCount(mark.sku));
    }
  }

  // ----- Whole runs -----

  lemma {:induction false} RunCountsUp(s: State, steps: seq<Step>)
    requires IsRun(s, steps)
    ensures Changes(s) <= Changes(Run(s, steps))
  {
    if steps != [] {
      RunCountsUp(s, steps[..|steps| - 1]);
      StepCountsUp(Run(s, steps[..|steps| - 1]), steps[|steps| - 1]);
    }
  }

  lemma {:induction false} QuietRunRetains(s: State, steps: seq<Step>)
    requires IsRun(s, steps) && Changes(Run(s, steps)) == Changes(s)
    ensures Retains(s, Run(s, steps))
  {
    if steps != [] {
      var front, last := steps[..|steps| - 1], steps[|steps| - 1];
      RunCountsUp(s, front);
      StepCountsUp(Run(s, front), last);
      QuietRunRetains(s, front);
      QuietStepRetains(Run(s, front), last);
    }
  }

  lemma {:induction false} QuietRunBlocksNothingNew(s: State, steps: seq<Step>, catalog: string -> Sku,
                                                    group: string, sku: Sku, zone: string, capacityType: string)
    requires IsRun(s, steps) && Changes(Run(s, steps)) == Changes(s)
    requires WfSteps(steps) && Catalogued(catalog, steps)
    requires WfOffering(group, sku, zone, capacityType) && sku == catalog(sku.name)
    ensures s.now <= Run(s, steps).now
    ensures var scope := CapacityReservationGroupScope(group);
      IsUnavailable(AsOf(Run(s, steps), s.now), scope, sku, zone, capacityType) ==> IsUnavailable(s, scope, sku, zone, capacityType)
  {
    if steps != [] {
      var front, last := steps[..|steps| - 1], steps[|steps| - 1];
      RunCountsUp(s, front);
      StepCountsUp(Run(s, front), last);
      QuietRunBlocksNothingNew(s, front, catalog, group, sku, zone, capacityType);
      QuietStepRetains(Run(s, front), last);
      QuietStepHidesNothing(Run(s, front), last, s.now, catalog, group, sku, zone, capacityType);
    } else {
      assert AsOf(s, s.now) == s;
    }
  }

  lemma QuietRunKeepsBlocked(s: State, steps: seq<Step>, scope: string, sku: Sku, zone: string, capacityType: string)
    requires IsRun(s, steps) && Changes(Run(s, steps)) == Changes(s)
    ensures s.now <= Run(s, steps).now
    ensures IsUnavailable(s, scope, sku, zone, capacityType) ==> IsUnavailable(AsOf(Run(s, steps), s.now), scope, sku, zone, capacityType)
  {
    QuietRunRetains(s, steps);
  }

  /**
   Exactly when the counter can be trusted: between two moments with no change reported the
   answer for an offering is the same if and only if, at the later one, the offering is
   unavailable or none of its own blocking entries has lapsed since the earlier one.
   */
  lemma SameAnswerExactlyUnlessLapsed(s: State, steps: seq<Step>, catalog: string -> Sku,
                                      group: string, sku: Sku, zone: string, capacityType: string)
    requires IsRun(s, steps) && Changes(Run(s, steps)) == Changes(s)
    requires WfSteps(steps) && Catalogued(catalog, steps)
    requires WfOffering(group, sku, zone, capacityType) && sku == catalog(sku.name)
    ensures var scope, t := CapacityReservationGroupScope(group), Run(s, steps);
      (IsUnavailable(s, scope, sku, zone, capacityType) <==> IsUnavailable(t, scope, sku, zone, capacityType))
      <==> (IsUnavailable(t, scope, sku, zone, capacityType) || !LapsedEntry(t, s.now, scope, sku, zone, capacityType))
  {
    var scope := CapacityReservationGroupScope(group);
    QuietRunKeepsBlocked(s, steps, scope, sku, zone, capacityType);
    QuietRunBlocksNothingNew(s, steps, catalog, group, sku, zone, capacityType);
    TurnedBack(Run(s, steps), s.now, scope, sku, zone, capacityType);
  }

  /** With no change reported, no offering in any scope goes from available to unavailable. */
  lemma QuietRunHidesNothing(s: State, steps: seq<Step>, catalog: string -> Sku,
                             group: string, sku: Sku, zone: string, capacityType: string)
    requires IsRun(s, steps) && Changes(Run(s, steps)) == Changes(s)
    requires WfSteps(steps) && Catalogued(catalog, steps)
    requires WfOffering(group, sku, zone, capacityType) && sku == catalog(sku.name)
    ensures var scope := CapacityReservationGroupScope(group);
      !IsUnavailable(s, scope, sku, zone, capacityType) ==> !IsUnavailable(Run(s, steps), scope, sku, zone, capacityType)
  {
    SameAnswerExactlyUnlessLapsed(s, steps, catalog, group, sku, zone, capacityType);
  }

  /** With no change reported, an offering becomes available only because a blocking entry of its own has lapsed. */
  lemma QuietRunFreesOnlyByExpiry(s: State, steps: seq<Step>, scope: string, sku: Sku, zone: string, capacityType: string)
    requires IsRun(s, steps) && Changes(Run(s, steps)) == Changes(s)
    requires IsUnavailable(s, scope, sku, zone, capacityType)
    requires !IsUnavailable(Run(s, steps), scope, sku, zone, capacityType)
    ensures LapsedEntry(Run(s, steps), s.now, scope, sku, zone, capacityType)
  {
    QuietRunKeepsBlocked(s, steps, scope, sku, zone, capacityType);
    TurnedBack(Run(s, steps), s.now, scope, sku, zone, capacityType);
  }

  /** The number read at both moments is the same, it did not go all the way round, and nothing is owed at the later one. */
  predicate SameSeqNum(s: State, t: State) {
    SeqNum(t) == SeqNum(s) && t.seqNum < s.seqNum + TWO_64 && t.owed == 0
  }

  lemma SameSeqNumIsQuiet(s: State, steps: seq<Step>)
    requires IsRun(s, steps) && SameSeqNum(s, Run(s, steps))
    ensures Changes(Run(s, steps)) == Changes(s)
  {
    RunCountsUp(s, steps);
  }

  /** The detector theorem: equal 64-bit numbers mean equal answers exactly where no blocking entry has lapsed unnoticed. */
  lemma SameSeqNumSameAnswersExactly(s: State, steps: seq<Step>, catalog: string -> Sku,
                                     group: string, sku: Sku, zone: string, capacityType: string)
    requires IsRun(s, steps) && WfSteps(steps) && Catalogued(catalog, steps)
    requires WfOffering(group, sku, zone, capacityType) && sku == catalog(sku.name)
    requires SameSeqNum(s, Run(s, steps))
    ensures var scope, t := CapacityReservationGroupScope(group), Run(s, steps);
      (IsUnavailable(s, scope, sku, zone, capacityType) <==> IsUnavailable(t, scope, sku, zone, capacityType))
      <==> (IsUnavailable(t, scope, sku, zone, capacityType) || !LapsedEntry(t, s.now, scope, sku, zone, capacityType))
  {
    SameSeqNumIsQuiet(s, steps);
    SameAnswerExactlyUnlessLapsed(s, steps, catalog, group, sku, zone, capacityType);
  }

  lemma SweptHasNoLapsedEntry(s: State, since: int, scope: string, sku: Sku, zone: string, capacityType: string)
    requires Swept(s)
    ensures !LapsedEntry(s, since, scope, sku, zone, capacityType)
  {
    assert forall key :: key in s.single && Expired(s.single[key].expiry, s.now) ==> key in ExpiredKeys(s.single, s.now);
    assert forall key :: key in s.family && Expired(s.family[key].expiry, s.now) ==> key in ExpiredKeys(s.family, s.now);
  }

  /** In particular, once no expired entry is left in the caches all answers agree. */
  lemma SameSeqNumSameAnswers(s: State, steps: seq<Step>, catalog: string -> Sku,
                              group: string, sku: Sku, zone: string, capacityType: string)
    requires IsRun(s, steps) && WfSteps(steps) && Catalogued(catalog, steps)
    requires WfOffering(group, sku, zone, capacityType) && sku == catalog(sku.name)
    requires SameSeqNum(s, Run(s, steps)) && Swept(Run(s, steps))
    ensures var scope := CapacityReservationGroupScope(group);
      IsUnavailable(s, scope, sku, zone, capacityType) <==> IsUnavailable(Run(s, steps), scope, sku, zone, capacityType)
  {
    SameSeqNumSameAnswersExactly(s, steps, catalog, group, sku, zone, capacityType);
    SweptHasNoLapsedEntry(Run(s, steps), s.now, CapacityReservationGroupScope(group), sku, zone, capacityType);
  }

  /** Without the sweep the number does not notice: an entry expires and nothing is reported. */
  lemma ExpiryIsSilent(s: State, sku: Sku, zone: string)
    requires s.single == map[] && s.family == map[]
    ensures var steps := [MarkSpot(5), Publish(s.owed + 1), Tick(6)];
      && IsRun(s, steps) && IsRun(s, steps[..2])
      && var before, after := Run(s, steps[..2]), Run(s, steps);
      && before.seqNum == after.seqNum && after.owed == 0
      && IsUnavailable(before, UNRESERVED, sku, zone, SPOT)
      && !IsUnavailable(after, UNRESERVED, sku, zone, SPOT)
  {
    var steps := [MarkSpot(5), Publish(s.owed + 1), Tick(6)];
    assert steps[..2][..1] == [steps[0]] && steps[..2][..1][..0] == [];
    var s1 := Apply(s, steps[0]);
    assert IsRun(s, []) && Run(s, []) == s;
    assert IsRun(s, [steps[0]]) && Run(s, [steps[0]]) == s1;
    assert IsRun(s, steps[..2]) && Run(s, steps[..2]) == Apply(s1, steps[1]);
    assert IsRun(s, steps) && Run(s, steps) == Apply(Run(s, steps[..2]), steps[2]);
    var after := Run(s, steps);
    assert after.single.Keys == {SpotKey()};
  }
}
