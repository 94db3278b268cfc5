/**
 How long marks last, told in clock times and TTLs. An offering is unavailable exactly while
 some mark that covers it has neither run out nor been cleared, where a later mark under the
 same key replaces the time its predecessor had left.
 */
module OfferingsLifetimes {
  import opened TtlCache
  import opened OfferingKeys
  import opened OfferingsModel
  import opened OfferingsHistory
  import opened Text

  /**
   A mark taken at `taken` has not run out at `clock`. A zero TTL stands for the cache's
   default; if that or the TTL itself is not positive, it never does.
   */
  predicate Runs(ttl: int, defaultTtl: int, taken: int, clock: int) {
    && (ttl > 0 ==> clock <= taken + ttl)
    && (ttl == 0 && defaultTtl > 0 ==> clock <= taken + defaultTtl)
  }

  // ----- Single keys: the last mark counts -----

  /** Step `i` marks the key, and no later step marks it again or clears its scope. */
  predicate LastMark(steps: seq<Step>, i: nat, k: SingleKey) {
    && i < |steps| && SingleMarked(steps[i]) == Some(k)
    && forall j :: i < j < |steps| ==> SingleMarked(steps[j]) != Some(k) && !Clears(steps[j], ScopeOf(k))
  }

  predicate Holds(config: Config, start: int, steps: seq<Step>, i: nat, k: SingleKey) {
    LastMark(steps, i, k) && Runs(steps[i].ttl, config.singleTtl, Clock(start, steps[..i]), Clock(start, steps))
  }

  lemma {:induction false} LastMarkStands(config: Config, start: int, steps: seq<Step>, i: nat, k: SingleKey)
    requires LastMark(steps, i, k)
    ensures StandingMark(config, start, steps, k) == Some(ExpiryFor(steps[i].ttl, config.singleTtl, Clock(start, steps[..i])))
  {
    if i < |steps| - 1 {
      var front := steps[..|steps| - 1];
      assert front[..i] == steps[..i];
      LastMarkStands(config, start, front, i, k);
    }
  }

  lemma StandsExactly(config: Config, start: int, steps: seq<Step>, k: SingleKey)
    ensures Stands(StandingMark(config, start, steps, k), Clock(start, steps)) <==> exists i: nat :: Holds(config, start, steps, i, k)
  {
    if StandingMark(config, start, steps, k).Some? {
      var i := StandingMarkOrigin(config, start, steps, k);
      assert LastMark(steps, i, k);
      assert Stands(StandingMark(config, start, steps, k), Clock(start, steps)) ==> Holds(config, start, steps, i, k);
    }
    forall i: nat | Holds(config, start, steps, i, k) ensures Stands(StandingMark(config, start, steps, k), Clock(start, steps)) {
      LastMarkStands(config, start, steps, i, k);
    }
  }

  /** An entry is live exactly while the last mark under its key runs: a renewal replaces the time left before it. */
  lemma LastMarkDecides(s: State, steps: seq<Step>, i: nat, k: SingleKey)
    requires Empty(s) && IsRun(s, steps) && WfSteps(steps) && WfSingle(k) && LastMark(steps, i, k)
    ensures SingleLive(Run(s, steps), PrintSingle(k)) <==>
      Runs(steps[i].ttl, s.config.singleTtl, Clock(s.now, steps[..i]), Clock(s.now, steps))
  {
    SingleFollowsHistory(s, steps, k);
    ClockFollows(s, steps);
    LastMarkStands(s.config, s.now, steps, i, k);
  }

  // ----- Family keys: an unbroken series of marks -----

  /** Step `j` is the last of the first `p` steps to mark the family key. */
  predicate LastFamilyMark(steps: seq<Step>, p: nat, j: nat, k: FamilyKey) {
    && j < p <= |steps| && MarksFamily(steps[j], k)
    && forall m :: j < m < p ==> !MarksFamily(steps[m], k)
  }

  /** The mark of step `j` has not run out when the first `p` steps are over. */
  predicate RunsTo(config: Config, start: int, steps: seq<Step>, j: nat, p: nat)
    requires j < p <= |steps| && FamilyMarked(steps[j]).Some?
  {
    Runs(steps[j].ttl, config.familyTtl, Clock(start, steps[..j]), Clock(start, steps[..p]))
  }

  /** From step `i`, a mark, the family key has been marked without a gap and its scope not cleared. */
  ghost predicate Unbroken(config: Config, start: int, steps: seq<Step>, i: nat, k: FamilyKey) {
    && i < |steps| && MarksFamily(steps[i], k)
    && (forall j :: i < j < |steps| ==> !Clears(steps[j], k.scope))
    && (forall j: nat, p: nat :: i <= j && LastFamilyMark(steps, p, j, k) ==> RunsTo(config, start, steps, j, p))
  }

  /** A mark of an unbroken series with a threshold of at most `cpuCount`. */
  ghost predicate FamilyHolds(config: Config, start: int, steps: seq<Step>, i: nat, k: FamilyKey, cpuCount: int) {
    Unbroken(config, start, steps, i, k) && FamilyMarked(steps[i]).value.1 <= cpuCount
  }

  ghost predicate ChainBlocks(chain: seq<FamilyMark>, now: int, cpuCount: int) {
    ChainLive(chain, now) && exists m :: m in chain && m.cpuCount <= cpuCount
  }

  lemma {:induction false} LastFamilyMarkFrom(steps: seq<Step>, i: nat, p: nat, k: FamilyKey) returns (j: nat)
    requires i < p <= |steps| && MarksFamily(steps[i], k)
    ensures i <= j && LastFamilyMark(steps, p, j, k)
    decreases p
  {
    if MarksFamily(steps[p - 1], k) {
      j := p - 1;
    } else {
      j := LastFamilyMarkFrom(steps, i, p - 1, k);
    }
  }

  /** Dropping the last step keeps a series unbroken. */
  lemma UnbrokenBefore(config: Config, start: int, steps: seq<Step>, i: nat, k: FamilyKey)
    requires i < |steps| - 1 && Unbroken(config, start, steps, i, k)
    ensures Unbroken(config, start, steps[..|steps| - 1], i, k)
  {
    var front := steps[..|steps| - 1];
    forall j: nat, p: nat | i <= j && LastFamilyMark(front, p, j, k) ensures RunsTo(config, start, front, j, p) {
      assert LastFamilyMark(steps, p, j, k);
      assert front[..j] == steps[..j] && front[..p] == steps[..p];
    }
  }

  /** Adding a step that does not clear the scope keeps it so while the last mark runs. */
  lemma UnbrokenAfter(config: Config, start: int, steps: seq<Step>, i: nat, k: FamilyKey, last: nat)
    requires steps != [] && Unbroken(config, start, steps[..|steps| - 1], i, k) && !Clears(steps[|steps| - 1], k.scope)
    requires LastFamilyMark(steps, |steps|, last, k) && RunsTo(config, start, steps, last, |steps|)
    ensures Unbroken(config, start, steps, i, k)
  {
    var front := steps[..|steps| - 1];
    forall j: nat, p: nat | i <= j && LastFamilyMark(steps, p, j, k) ensures RunsTo(config, start, steps, j, p) {
      if p == |steps| {
        assert j == last;
      } else {
        assert LastFamilyMark(front, p, j, k);
        assert front[..j] == steps[..j] && front[..p] == steps[..p];
      }
    }
  }

  /** The last mark of a live chain is the last mark of the run. */
  lemma ChainEndsWith(config: Config, start: int, steps: seq<Step>, k: FamilyKey) returns (j: nat)
    requires Chain(config, start, steps, k) != []
    ensures LastFamilyMark(steps, |steps|, j, k)
    ensures ChainLive(Chain(config, start, steps, k), Clock(start, steps)) <==> RunsTo(config, start, steps, j, |steps|)
  {
    j := ChainOrigin(config, start, steps, k);
    assert steps[..|steps|] == steps;
  }

  /** One step: a mark under the key. */
  lemma ChainAfterMark(config: Config, start: int, steps: seq<Step>, k: FamilyKey, cpuCount: int)
    requires steps != [] && MarksFamily(steps[|steps| - 1], k)
    requires var front := steps[..|steps| - 1];
      ChainBlocks(Chain(config, start, front, k), Clock(start, front), cpuCount) <==> exists i: nat :: FamilyHolds(config, start, front, i, k, cpuCount)
    ensures ChainBlocks(Chain(config, start, steps, k), Clock(start, steps), cpuCount) <==> exists i: nat :: FamilyHolds(config, start, steps, i, k, cpuCount)
  {
    var front, last := steps[..|steps| - 1], steps[|steps| - 1];
    var n := |front|;
    var before, chain := Chain(config, start, front, k), Chain(config, start, steps, k);
    var mark := chain[|chain| - 1];
    assert Clock(start, steps) == Clock(start, front) && steps[..|steps|] == steps && steps[..n] == front;
    assert LastFamilyMark(steps, |steps|, n, k) && RunsTo(config, start, steps, n, |steps|);
    assert Unbroken(config, start, steps, n, k);
    assert ChainLive(chain, Clock(start, steps)) && mark in chain && mark.cpuCount == FamilyMarked(last).value.1;
    if mark.cpuCount <= cpuCount {
      assert FamilyHolds(config, start, steps, n, k, cpuCount);
    } else {
      if ChainBlocks(chain, Clock(start, steps), cpuCount) {
        var m :| m in chain && m.cpuCount <= cpuCount;
        assert m in before;
        var i: nat :| FamilyHolds(config, start, front, i, k, cpuCount);
        UnbrokenAfter(config, start, steps, i, k, n);
        assert FamilyHolds(config, start, steps, i, k, cpuCount);
      }
      if i: nat :| FamilyHolds(config, start, steps, i, k, cpuCount) {
        UnbrokenBefore(config, start, steps, i, k);
        assert FamilyHolds(config, start, front, i, k, cpuCount);
        var m :| m in before && m.cpuCount <= cpuCount;
        assert m in chain;
      }
    }
  }

  /** One step: anything else that leaves the scope alone. */
  lemma ChainAfterOther(config: Config, start: int, steps: seq<Step>, k: FamilyKey, cpuCount: int)
    requires steps != [] && !MarksFamily(steps[|steps| - 1], k) && !Clears(steps[|steps| - 1], k.scope)
    requires var front := steps[..|steps| - 1];
      ChainBlocks(Chain(config, start, front, k), Clock(start, front), cpuCount) <==> exists i: nat :: FamilyHolds(config, start, front, i, k, cpuCount)
    ensures ChainBlocks(Chain(config, start, steps, k), Clock(start, steps), cpuCount) <==> exists i: nat :: FamilyHolds(config, start, steps, i, k, cpuCount)
  {
    var front := steps[..|steps| - 1];
    var chain := Chain(config, start, steps, k);
    assert chain == Chain(config, start, front, k);
    if ChainBlocks(chain, Clock(start, steps), cpuCount) {
      var i: nat :| FamilyHolds(config, start, front, i, k, cpuCount);
      var j := ChainEndsWith(config, start, steps, k);
      UnbrokenAfter(config, start, steps, i, k, j);
      assert FamilyHolds(config, start, steps, i, k, cpuCount);
    }
    if i: nat :| FamilyHolds(config, start, steps, i, k, cpuCount) {
      UnbrokenBefore(config, start, steps, i, k);
      assert FamilyHolds(config, start, front, i, k, cpuCount);
      var j := ChainEndsWith(config, start, steps, k);
      var last := LastFamilyMarkFrom(steps, i, |steps|, k);
      assert j == last;
    }
  }

  lemma {:induction false} ChainExactly(config: Config, start: int, steps: seq<Step>, k: FamilyKey, cpuCount: int)
    ensures ChainBlocks(Chain(config, start, steps, k), Clock(start, steps), cpuCount) <==> exists i: nat :: FamilyHolds(config, start, steps, i, k, cpuCount)
  {
    if steps != [] {
      var last := steps[|steps| - 1];
      ChainExactly(config, start, steps[..|steps| - 1], k, cpuCount);
      if MarksFamily(last, k) {
        ChainAfterMark(config, start, steps, k, cpuCount);
      } else if !Clears(last, k.scope) {
        ChainAfterOther(config, start, steps, k, cpuCount);
      }
    }
  }

  // ----- Answers -----

  /**
   Some mark still holds: the last one on the SKU and zone, on all spot, or on the offering
   itself, or one of an unbroken series on the family whose threshold the SKU reaches.
   */
  ghost predicate Blocked(config: Config, start: int, steps: seq<Step>, group: string, sku: Sku, zone: string, capacityType: string) {
    || (exists i: nat :: Holds(config, start, steps, i, SkuZone(sku.name, zone)))
    || (capacityType == SPOT && exists i: nat :: Holds(config, start, steps, i, AllSpot))
    || (exists i: nat :: FamilyHolds(config, start, steps, i, FoldFamily(FamilyKeyOf(group, sku, zone, capacityType)), CpuCount(sku)))
    || (exists i: nat :: Holds(config, start, steps, i, SingleKeyOf(group, sku, zone, capacityType)))
  }

  /** After any run from empty caches an offering is unavailable exactly if some mark that covers it still holds. */
  lemma UnavailableExactly(s: State, steps: seq<Step>, group: string, sku: Sku, zone: string, capacityType: string)
    requires Empty(s) && IsRun(s, steps) && WfSteps(steps)
    requires WfOffering(group, sku, zone, capacityType) && WHOLE_FAMILY_BLOCKED <= CpuCount(sku)
    ensures IsUnavailable(Run(s, steps), CapacityReservationGroupScope(group), sku, zone, capacityType)
       <==> Blocked(s.config, s.now, steps, group, sku, zone, capacityType)
  {
    AnswersFollowHistory(s, steps, group, sku, zone, capacityType);
    HistoryMeansBlocked(s.config, s.now, steps, group, sku, zone, capacityType);
  }

  lemma HistoryMeansBlocked(config: Config, start: int, steps: seq<Step>, group: string, sku: Sku, zone: string, capacityType: string)
    ensures HistoryUnavailable(config, start, steps, group, sku, zone, capacityType)
       <==> Blocked(config, start, steps, group, sku, zone, capacityType)
  {
    StandsExactly(config, start, steps, SkuZone(sku.name, zone));
    StandsExactly(config, start, steps, AllSpot);
    StandsExactly(config, start, steps, SingleKeyOf(group, sku, zone, capacityType));
    ChainExactly(config, start, steps, FoldFamily(FamilyKeyOf(group, sku, zone, capacityType)), CpuCount(sku));
  }

  // ----- One mark -----

  predicate IsMark(step: Step) {
    step.MarkOffering? || step.MarkFamily? || step.MarkSpot? || step.MarkSkuZone?
  }

  /** The offerings a mark names: families, zones and capacity types of family marks up to letter case. */
  predicate Names(mark: Step, group: string, sku: Sku, zone: string, capacityType: string)
    requires IsMark(mark)
  {
    match mark
    case MarkOffering(g, m, z, ct, _) =>
      ToLower(g) == ToLower(group) && m.name == sku.name && z == zone && ct == capacityType
    case MarkFamily(g, m, z, ct, _) =>
      && ToLower(g) == ToLower(group) && m.family != "" && ToLower(m.family) == ToLower(sku.family)
      && ToLower(z) == ToLower(zone) && ToLower(ct) == ToLower(capacityType)
    case MarkSpot(_) => capacityType == "spot"
    case MarkSkuZone(name, z, _) => name == sku.name && z == zone
  }

  /** Outside groups an offering mark also blocks its family from its own vCPU count on. */
  predicate Widens(mark: Step, group: string, sku: Sku, zone: string, capacityType: string) {
    && mark.MarkOffering? && mark.group == "" && group == "" && mark.sku.family != ""
    && ToLower(mark.sku.family) == ToLower(sku.family)
    && ToLower(mark.zone) == ToLower(zone) && ToLower(mark.capacityType) == ToLower(capacityType)
    && (if mark.sku.vcpu.Some? then mark.sku.vcpu.value else 0) <= (if sku.vcpu.Some? then sku.vcpu.value else 0)
  }

  /** The step renews the mark: it marks what the mark does, for a TTL of its own. */
  predicate Renews(step: Step, mark: Step)
    requires IsMark(mark)
  {
    match mark
    case MarkFamily(_, _, _, _, _) => FamilyMarked(mark).Some? && MarksFamily(step, FamilyMarked(mark).value.0)
    case _ => SingleMarked(step) == SingleMarked(mark)
  }

  /** Steps that wipe out the mark: a flush, or the invalidation of its group. */
  predicate Wipes(step: Step, mark: Step)
    requires IsMark(mark)
  {
    || step.FlushAll?
    || (step.InvalidateGroup? && (mark.MarkOffering? || mark.MarkFamily?) && mark.group != "" && ToLower(step.group) == ToLower(mark.group))
  }

  function DefaultTtl(config: Config, mark: Step): int {
    if mark.MarkFamily? then config.familyTtl else config.singleTtl
  }

  lemma {:induction false} LastMarkFrom(steps: seq<Step>, i: nat, k: SingleKey) returns (j: nat)
    requires i < |steps| && SingleMarked(steps[i]) == Some(k)
    requires forall j :: i < j < |steps| ==> !Clears(steps[j], ScopeOf(k))
    ensures i <= j && LastMark(steps, j, k)
    decreases |steps| - i
  {
    if n: nat :| i < n < |steps| && SingleMarked(steps[n]) == Some(k) {
      j := LastMarkFrom(steps, n, k);
    } else {
      j := i;
    }
  }

  lemma {:induction false} ClockNeverFalls(start: int, steps: seq<Step>, n: nat)
    requires n <= |steps|
    ensures Clock(start, steps[..n]) <= Clock(start, steps)
  {
    if n == |steps| {
      assert steps[..n] == steps;
    } else {
      assert steps[..|steps| - 1][..n] == steps[..n];
      ClockNeverFalls(start, steps[..|steps| - 1], n);
    }
  }

  lemma ScopeEmpty(group: string)
    ensures CapacityReservationGroupScope(group) == UNRESERVED <==> group == ""
  {
    assert |ToLower(group)| == |group|;
  }

  lemma WipesClears(step: Step, mark: Step)
    requires IsMark(mark)
    ensures SingleMarked(mark).Some? ==> (Wipes(step, mark) <==> Clears(step, ScopeOf(SingleMarked(mark).value)))
    ensures FamilyMarked(mark).Some? ==> (Wipes(step, mark) <==> Clears(step, FamilyMarked(mark).value.0.scope))
  {
    if mark.MarkOffering? || mark.MarkFamily? {
      ToLowerIdempotent(mark.group);
      ScopeEmpty(mark.group);
    }
  }

  /** A mark names an offering through the single key it marks. */
  lemma NamedKey(mark: Step, group: string, sku: Sku, zone: string, capacityType: string)
    requires IsMark(mark) && !mark.MarkFamily?
    ensures Names(mark, group, sku, zone, capacityType) <==>
      || SingleMarked(mark) == Some(SkuZone(sku.name, zone))
      || (capacityType == SPOT && SingleMarked(mark) == Some(AllSpot))
      || SingleMarked(mark) == Some(SingleKeyOf(group, sku, zone, capacityType))
  {
  }

  /** A family mark names an offering, or widens to it, through the family key it marks. */
  lemma NamedFamily(mark: Step, group: string, sku: Sku, zone: string, capacityType: string)
    requires IsMark(mark) && WHOLE_FAMILY_BLOCKED <= CpuCount(sku)
    ensures var k := FoldFamily(FamilyKeyOf(group, sku, zone, capacityType));
      MarksFamily(mark, k) && FamilyMarked(mark).value.1 <= CpuCount(sku) <==>
        (mark.MarkFamily? && Names(mark, group, sku, zone, capacityType)) || Widens(mark, group, sku, zone, capacityType)
  {
    ToLowerIdempotent(group);
    ScopeEmpty(group);
    if mark.MarkOffering? || mark.MarkFamily? {
      ToLowerIdempotent(mark.group);
      ScopeEmpty(mark.group);
    }
  }

  /** Nothing after step `i` wipes its mark out, and whatever renews it still runs at the end. */
  ghost predicate Undisturbed(config: Config, start: int, steps: seq<Step>, i: nat)
    requires i < |steps| && IsMark(steps[i])
  {
    forall j :: i < j < |steps| ==>
      && !Wipes(steps[j], steps[i])
      && (Renews(steps[j], steps[i]) ==> Runs(steps[j].ttl, DefaultTtl(config, steps[i]), Clock(start, steps[..j]), Clock(start, steps)))
  }

  lemma SingleKeyLasts(config: Config, start: int, steps: seq<Step>, i: nat) returns (j: nat)
    requires i < |steps| && IsMark(steps[i]) && !steps[i].MarkFamily? && Undisturbed(config, start, steps, i)
    requires Runs(steps[i].ttl, config.singleTtl, Clock(start, steps[..i]), Clock(start, steps))
    ensures Holds(config, start, steps, j, SingleMarked(steps[i]).value)
  {
    forall n | i < n < |steps| ensures !Clears(steps[n], ScopeOf(SingleMarked(steps[i]).value)) {
      WipesClears(steps[n], steps[i]);
    }
    j := LastMarkFrom(steps, i, SingleMarked(steps[i]).value);
    assert j == i || Renews(steps[j], steps[i]);
  }

  lemma FamilyKeyLasts(config: Config, start: int, steps: seq<Step>, i: nat)
    requires i < |steps| && steps[i].MarkFamily? && FamilyMarked(steps[i]).Some? && Undisturbed(config, start, steps, i)
    requires Runs(steps[i].ttl, config.familyTtl, Clock(start, steps[..i]), Clock(start, steps))
    ensures Unbroken(config, start, steps, i, FamilyMarked(steps[i]).value.0)
  {
    var k := FamilyMarked(steps[i]).value.0;
    forall n | i < n < |steps| ensures !Clears(steps[n], k.scope) {
      WipesClears(steps[n], steps[i]);
    }
    forall j: nat, p: nat | i <= j && LastFamilyMark(steps, p, j, k) ensures RunsTo(config, start, steps, j, p) {
      ClockNeverFalls(start, steps, p);
      assert j == i || Renews(steps[j], steps[i]);
    }
  }

  /**
   Every mark lasts its TTL. Taken at clock `t`, it keeps each offering it names unavailable
   through `t` plus its TTL (for a zero TTL the default of its cache, and for ever if that or
   the TTL is not positive), whatever else happens, unless it is wiped out or renewed for less.
   */
  lemma MarkLastsItsTtl(s: State, steps: seq<Step>, i: nat, group: string, sku: Sku, zone: string, capacityType: string)
    requires Empty(s) && IsRun(s, steps) && WfSteps(steps)
    requires WfOffering(group, sku, zone, capacityType) && WHOLE_FAMILY_BLOCKED <= CpuCount(sku)
    requires i < |steps| && IsMark(steps[i]) && Names(steps[i], group, sku, zone, capacityType)
    requires Undisturbed(s.config, s.now, steps, i)
    requires var mark, t, now := steps[i], Clock(s.now, steps[..i]), Clock(s.now, steps);
      var defaultTtl := if mark.MarkFamily? then s.config.familyTtl else s.config.singleTtl;
      (mark.ttl > 0 ==> now <= t + mark.ttl) && (mark.ttl == 0 && defaultTtl > 0 ==> now <= t + defaultTtl)
    ensures IsUnavailable(Run(s, steps), CapacityReservationGroupScope(group), sku, zone, capacityType)
  {
    UnavailableExactly(s, steps, group, sku, zone, capacityType);
    if steps[i].MarkFamily? {
      NamedFamily(steps[i], group, sku, zone, capacityType);
      FamilyKeyLasts(s.config, s.now, steps, i);
      assert FamilyHolds(s.config, s.now, steps, i, FoldFamily(FamilyKeyOf(group, sku, zone, capacityType)), CpuCount(sku));
    } else {
      NamedKey(steps[i], group, sku, zone, capacityType);
      var j := SingleKeyLasts(s.config, s.now, steps, i);
    }
  }

  // ----- The only mark -----

  predicate OnlyMark(steps: seq<Step>, i: nat) {
    i < |steps| && IsMark(steps[i]) && forall j :: 0 <= j < |steps| && j != i ==> !IsMark(steps[j])
  }

  predicate Wiped(steps: seq<Step>, i: nat)
    requires i < |steps| && IsMark(steps[i])
  {
    exists j :: i < j < |steps| && Wipes(steps[j], steps[i])
  }

  lemma OnlySingleHolds(config: Config, start: int, steps: seq<Step>, i: nat, k: SingleKey)
    requires OnlyMark(steps, i)
    ensures (exists j: nat :: Holds(config, start, steps, j, k)) <==>
      && SingleMarked(steps[i]) == Some(k) && !Wiped(steps, i)
      && Runs(steps[i].ttl, config.singleTtl, Clock(start, steps[..i]), Clock(start, steps))
  {
    assert forall j: nat :: Holds(config, start, steps, j, k) ==> j == i;
    if SingleMarked(steps[i]) == Some(k) {
      forall n | i < n < |steps| ensures Wipes(steps[n], steps[i]) <==> Clears(steps[n], ScopeOf(k)) {
        WipesClears(steps[n], steps[i]);
      }
      assert LastMark(steps, i, k) <==> !Wiped(steps, i);
      assert Holds(config, start, steps, i, k) <==>
        !Wiped(steps, i) && Runs(steps[i].ttl, config.singleTtl, Clock(start, steps[..i]), Clock(start, steps));
    }
  }

  lemma OnlyFamilyHolds(config: Config, start: int, steps: seq<Step>, i: nat, k: FamilyKey, cpuCount: int)
    requires OnlyMark(steps, i)
    ensures (exists j: nat :: FamilyHolds(config, start, steps, j, k, cpuCount)) <==>
      && MarksFamily(steps[i], k) && FamilyMarked(steps[i]).value.1 <= cpuCount && !Wiped(steps, i)
      && Runs(steps[i].ttl, config.familyTtl, Clock(start, steps[..i]), Clock(start, steps))
  {
    assert forall j: nat :: FamilyHolds(config, start, steps, j, k, cpuCount) ==> j == i;
    if MarksFamily(steps[i], k) {
      forall n | i < n < |steps| ensures Wipes(steps[n], steps[i]) <==> Clears(steps[n], k.scope) {
        WipesClears(steps[n], steps[i]);
      }
      assert LastFamilyMark(steps, |steps|, i, k) && steps[..|steps|] == steps;
      forall j: nat, p: nat | i <= j && LastFamilyMark(steps, p, j, k) && RunsTo(config, start, steps, i, |steps|)
        ensures RunsTo(config, start, steps, j, p)
      {
        ClockNeverFalls(start, steps, p);
        assert j == i;
      }
      assert Unbroken(config, start, steps, i, k) <==> !Wiped(steps, i) && RunsTo(config, start, steps, i, |steps|);
      assert FamilyHolds(config, start, steps, i, k, cpuCount) <==>
        Unbroken(config, start, steps, i, k) && FamilyMarked(steps[i]).value.1 <= cpuCount;
    }
  }

  /**
   After a run with a single mark the answers are settled by that mark: unavailable are exactly
   the offerings it names or widens to, until its TTL is over, unless it has been wiped out.
   */
  lemma OnlyMarkDecides(s: State, steps: seq<Step>, i: nat, group: string, sku: Sku, zone: string, capacityType: string)
    requires Empty(s) && IsRun(s, steps) && WfSteps(steps) && OnlyMark(steps, i)
    requires WfOffering(group, sku, zone, capacityType) && WHOLE_FAMILY_BLOCKED <= CpuCount(sku)
    ensures var mark, t, now := steps[i], Clock(s.now, steps[..i]), Clock(s.now, steps);
      IsUnavailable(Run(s, steps), CapacityReservationGroupScope(group), sku, zone, capacityType) <==>
        && !Wiped(steps, i)
        && (|| (Names(mark, group, sku, zone, capacityType) && Runs(mark.ttl, DefaultTtl(s.config, mark), t, now))
            || (Widens(mark, group, sku, zone, capacityType) && Runs(mark.ttl, s.config.familyTtl, t, now)))
  {
    var mark := steps[i];
    UnavailableExactly(s, steps, group, sku, zone, capacityType);
    OnlySingleHolds(s.config, s.now, steps, i, SkuZone(sku.name, zone));
    OnlySingleHolds(s.config, s.now, steps, i, AllSpot);
    OnlySingleHolds(s.config, s.now, steps, i, SingleKeyOf(group, sku, zone, capacityType));
    OnlyFamilyHolds(s.config, s.now, steps, i, FoldFamily(FamilyKeyOf(group, sku, zone, capacityType)), CpuCount(sku));
    NamedFamily(mark, group, sku, zone, capacityType);
    if !mark.MarkFamily? {
      NamedKey(mark, group, sku, zone, capacityType);
    }
  }

  /** Once the TTL of the only mark is over, every offering is available. */
  lemma NothingOutlastsTheOnlyMark(s: State, steps: seq<Step>, i: nat, group: string, sku: Sku, zone: string, capacityType: string)
    requires Empty(s) && IsRun(s, steps) && WfSteps(steps) && OnlyMark(steps, i)
    requires WfOffering(group, sku, zone, capacityType) && WHOLE_FAMILY_BLOCKED <= CpuCount(sku)
    requires var mark, t, now := steps[i], Clock(s.now, steps[..i]), Clock(s.now, steps);
      || (mark.ttl > 0 && now > t + mark.ttl)
      || (mark.ttl == 0 && s.config.singleTtl > 0 && s.config.familyTtl > 0 && now > t + s.config.singleTtl && now > t + s.config.familyTtl)
    ensures !IsUnavailable(Run(s, steps), CapacityReservationGroupScope(group), sku, zone, capacityType)
  {
    OnlyMarkDecides(s, steps, i, group, sku, zone, capacityType);
  }

  /**
   Why renewals are excepted: a second spot mark for 5 replaces the 180 of the first, so that
   after 6 units spot offerings are available again.
   */
  lemma ShorterRenewalEndsEarly(s: State, sku: Sku, zone: string)
    requires Empty(s) && WfOffering("", sku, zone, SPOT) && WHOLE_FAMILY_BLOCKED <= CpuCount(sku)
    ensures var steps := [MarkSpot(180), MarkSpot(5), Tick(6)];
      && IsRun(s, steps) && Clock(s.now, steps) <= s.now + 180
      && !IsUnavailable(Run(s, steps), UNRESERVED, sku, zone, SPOT)
  {
    var steps := [MarkSpot(180), MarkSpot(5), Tick(6)];
    TwoMarksThenTick(s, steps[0], steps[1], 6);
    UnavailableExactly(s, steps, "", sku, zone, SPOT);
    assert SingleMarked(steps[1]) == Some(AllSpot);
  }

  lemma TwoMarksThenTick(s: State, first: Step, second: Step, elapsed: nat)
    requires IsMark(first) && IsMark(second)
    ensures var steps := [first, second, Tick(elapsed)];
      IsRun(s, steps) && Clock(s.now, steps[..1]) == s.now && Clock(s.now, steps) == s.now + elapsed
  {
    var steps := [first, second, Tick(elapsed)];
    assert steps[..2] == [first, second] && [first, second][..1] == [first] && [first][..0] == [] && steps[..1] == [first];
    assert IsRun(s, [first]) && IsRun(s, [first, second]);
    assert Clock(s.now, [first]) == s.now && Clock(s.now, [first, second]) == s.now;
  }
}
