/**
 What the cache means, told from the marks alone. The history of a run fixes, for every
 structured key, the mark that still stands or the unbroken chain of family marks; the
 string-keyed caches answer exactly as that history says. Sweeps, printed keys and stale
 entries do not show.
 */
module OfferingsHistory {
  import opened TtlCache
  import opened OfferingKeys
  import opened OfferingsModel
  import opened Text

  /** Time after the steps. */
  function Clock(start: int, steps: seq<Step>): int {
    if steps == [] then start
    else
      var last := steps[|steps| - 1];
      Clock(start, steps[..|steps| - 1]) + if last.Tick? then last.elapsed else 0
  }

  /** The single key a step marks. */
  function SingleMarked(step: Step): Option<SingleKey> {
    match step
    case MarkOffering(g, sku, zone, ct, _) => Some(SingleKeyOf(g, sku, zone, ct))
    case MarkSpot(_) => Some(AllSpot)
    case MarkSkuZone(name, zone, _) => Some(SkuZone(name, zone))
    case _ => None
  }

  /** The family key a step marks, letter case folded, and the vCPU threshold it asks for. */
  function FamilyMarked(step: Step): Option<(FamilyKey, int)> {
    match step
    case MarkFamily(g, sku, zone, ct, _) =>
      if sku.family == "" then None else Some((FoldFamily(FamilyKeyOf(g, sku, zone, ct)), WHOLE_FAMILY_BLOCKED))
    case MarkOffering(g, sku, zone, ct, _) =>
      if sku.family == "" || CapacityReservationGroupScope(g) != UNRESERVED then None
      else Some((FoldFamily(FamilyKeyOf(g, sku, zone, ct)), CpuCount(sku)))
    case _ => None
  }

  predicate MarksFamily(step: Step, k: FamilyKey) {
    FamilyMarked(step).Some? && FamilyMarked(step).value.0 == k
  }

  /** Steps that wipe what a scope has recorded. */
  predicate Clears(step: Step, scope: string) {
    || step.FlushAll?
    || (step.InvalidateGroup? && scope != UNRESERVED && CapacityReservationGroupScope(step.group) == scope)
  }

  function ScopeOf(k: SingleKey): string {
    if k.Offering? then k.scope else UNRESERVED
  }

  /** Expiry of the last mark under the key since its scope was last cleared. */
  function StandingMark(config: Config, start: int, steps: seq<Step>, k: SingleKey): Option<Expiry> {
    if steps == [] then None
    else
      var front, last := steps[..|steps| - 1], steps[|steps| - 1];
      if SingleMarked(last) == Some(k) then Some(ExpiryFor(last.ttl, config.singleTtl, Clock(start, front)))
      else if Clears(last, ScopeOf(k)) then None
      else StandingMark(config, start, front, k)
  }

  predicate Stands(mark: Option<Expiry>, now: int) {
    mark.Some? && !Expired(mark.value, now)
  }

  datatype FamilyMark = FamilyMark(cpuCount: int, expiry: Expiry)

  predicate ChainLive(chain: seq<FamilyMark>, now: int) {
    chain != [] && !Expired(chain[|chain| - 1].expiry, now)
  }

  /** A mark on the key extends a live chain or starts a new one; clearing the scope empties it. */
  function NextChain(before: seq<FamilyMark>, step: Step, k: FamilyKey, defaultTtl: int, now: int): seq<FamilyMark> {
    if MarksFamily(step, k) then
      var mark := FamilyMark(FamilyMarked(step).value.1, ExpiryFor(step.ttl, defaultTtl, now));
      if ChainLive(before, now) then before + [mark] else [mark]
    else if Clears(step, k.scope) then []
    else before
  }

  /** The marks under a folded family key, each recorded before its predecessor expired. */
  function Chain(config: Config, start: int, steps: seq<Step>, k: FamilyKey): seq<FamilyMark> {
    if steps == [] then []
    else
      var front := steps[..|steps| - 1];
      NextChain(Chain(config, start, front, k), steps[|steps| - 1], k, config.familyTtl, Clock(start, front))
  }

  /** The most restrictive threshold of a chain. */
  function MinCpu(chain: seq<FamilyMark>): int
    requires chain != []
  {
    if |chain| == 1 then chain[0].cpuCount
    else
      var rest := MinCpu(chain[..|chain| - 1]);
      if rest <= chain[|chain| - 1].cpuCount then rest else chain[|chain| - 1].cpuCount
  }

  lemma {:induction false} MinCpuIsMinimum(chain: seq<FamilyMark>, cpuCount: int)
    requires chain != []
    ensures cpuCount >= MinCpu(chain) <==> exists m :: m in chain && m.cpuCount <= cpuCount
    ensures exists m :: m in chain && m.cpuCount == MinCpu(chain)
  {
    var last := chain[|chain| - 1];
    assert last in chain;
    if |chain| > 1 {
      var front := chain[..|chain| - 1];
      MinCpuIsMinimum(front, cpuCount);
      assert forall m :: m in chain <==> m in front || m == last;
    }
  }

  lemma MinCpuAppend(chain: seq<FamilyMark>, m: FamilyMark)
    requires chain != []
    ensures MinCpu(chain + [m]) == if MinCpu(chain) <= m.cpuCount then MinCpu(chain) else m.cpuCount
  {
    assert (chain + [m])[..|chain|] == chain;
  }

  predicate Empty(s: State) {
    s.single == map[] && s.family == map[]
  }

  // ----- The caches follow the history -----

  lemma {:induction false} ClockFollows(s: State, steps: seq<Step>)
    requires IsRun(s, steps)
    ensures Run(s, steps).now == Clock(s.now, steps) && Run(s, steps).config == s.config
  {
    if steps != [] {
      ClockFollows(s, steps[..|steps| - 1]);
    }
  }

  /** What a step does to one single key: marked, cleared, or left as live as time allows. */
  lemma SingleStep(s: State, step: Step, k: SingleKey)
    requires Enabled(s, step) && WfStep(step) && WfSingle(k)
    ensures var t, key := Apply(s, step), PrintSingle(k);
      if SingleMarked(step) == Some(k) then
        key in t.single && t.single[key].expiry == ExpiryFor(step.ttl, s.config.singleTtl, s.now)
      else if Clears(step, ScopeOf(k)) then !Live(t.single, key, t.now)
      else
        && (Live(t.single, key, t.now) ==> key in s.single && t.single[key] == s.single[key])
        && (key in s.single && !Expired(s.single[key].expiry, t.now) ==> Live(t.single, key, t.now))
  {
    match step
    case MarkOffering(g, sku, zone, ct, _) =>
      ScopeIsColonFree(g);
      PrintSingleInjective(k, SingleKeyOf(g, sku, zone, ct));
    case MarkSpot(_) =>
      PrintSingleInjective(k, AllSpot);
    case MarkSkuZone(name, zone, _) =>
      PrintSingleInjective(k, SkuZone(name, zone));
    case InvalidateGroup(g) =>
      var scope := CapacityReservationGroupScope(g);
      if scope != UNRESERVED {
        ScopeIsColonFree(g);
        GroupPrefixMatchesSingle(k, scope);
      }
    case _ =>
  }

  /** A single key is live exactly while its standing mark is, with that mark's expiry. */
  lemma {:induction false} SingleFollowsHistory(s: State, steps: seq<Step>, k: SingleKey)
    requires Empty(s) && IsRun(s, steps) && WfSteps(steps) && WfSingle(k)
    ensures var t, mark := Run(s, steps), StandingMark(s.config, s.now, steps, k);
      && (SingleLive(t, PrintSingle(k)) <==> Stands(mark, t.now))
      && (Stands(mark, t.now) ==> t.single[PrintSingle(k)].expiry == mark.value)
  {
    if steps != [] {
      var front, last := steps[..|steps| - 1], steps[|steps| - 1];
      SingleFollowsHistory(s, front, k);
      ClockFollows(s, front);
      SingleStep(Run(s, front), last, k);
    }
  }

  /** What a step does to one family key; a mark keeps a live threshold that is at least as restrictive. */
  lemma FamilyStep(s: State, step: Step, k: FamilyKey)
    requires Enabled(s, step) && WfStep(step) && WfFamily(k) && FoldFamily(k) == k
    ensures var t, key := Apply(s, step), PrintFamily(k);
      if MarksFamily(step, k) then
        var cpuCount := FamilyMarked(step).value.1;
        && key in t.family && t.family[key].expiry == ExpiryFor(step.ttl, s.config.familyTtl, s.now)
        && t.family[key].value ==
             (if Live(s.family, key, s.now) && s.family[key].value <= cpuCount then s.family[key].value else cpuCount)
      else if Clears(step, k.scope) then !Live(t.family, key, t.now)
      else
        && (Live(t.family, key, t.now) ==> key in s.family && t.family[key] == s.family[key])
        && (key in s.family && !Expired(s.family[key].expiry, t.now) ==> Live(t.family, key, t.now))
  {
    match step
    case MarkOffering(g, sku, zone, ct, _) =>
      ScopeIsColonFree(g);
      PrintFamilyInjective(k, FamilyKeyOf(g, sku, zone, ct));
    case MarkFamily(g, sku, zone, ct, _) =>
      ScopeIsColonFree(g);
      PrintFamilyInjective(k, FamilyKeyOf(g, sku, zone, ct));
    case InvalidateGroup(g) =>
      var scope := CapacityReservationGroupScope(g);
      if scope != UNRESERVED {
        ScopeIsColonFree(g);
        GroupPrefixMatchesFamily(k, scope);
      }
    case _ =>
  }

  /** The cache entry under the key is what the chain says. */
  predicate Reflects(s: State, k: FamilyKey, chain: seq<FamilyMark>) {
    && (Live(s.family, PrintFamily(k), s.now) <==> ChainLive(chain, s.now))
    && (ChainLive(chain, s.now) ==>
          && s.family[PrintFamily(k)].value == MinCpu(chain)
          && s.family[PrintFamily(k)].expiry == chain[|chain| - 1].expiry)
  }

  lemma StepReflects(s: State, step: Step, k: FamilyKey, chain: seq<FamilyMark>)
    requires Enabled(s, step) && WfStep(step) && WfFamily(k) && FoldFamily(k) == k && Reflects(s, k, chain)
    ensures Reflects(Apply(s, step), k, NextChain(chain, step, k, s.config.familyTtl, s.now))
  {
    FamilyStep(s, step, k);
    if FamilyMarked(step).Some? && ChainLive(chain, s.now) {
      MinCpuAppend(chain, FamilyMark(FamilyMarked(step).value.1, ExpiryFor(step.ttl, s.config.familyTtl, s.now)));
    }
  }

  /**
   A family key is live exactly while its chain is. The stored threshold is the minimum over
   the chain, the expiry that of the chain's last mark.
   */
  lemma {:induction false} FamilyFollowsHistory(s: State, steps: seq<Step>, k: FamilyKey)
    requires Empty(s) && IsRun(s, steps) && WfSteps(steps) && WfFamily(k) && FoldFamily(k) == k
    ensures Reflects(Run(s, steps), k, Chain(s.config, s.now, steps, k))
  {
    if steps != [] {
      var front, last := steps[..|steps| - 1], steps[|steps| - 1];
      FamilyFollowsHistory(s, front, k);
      ClockFollows(s, front);
      StepReflects(Run(s, front), last, k, Chain(s.config, s.now, front, k));
    }
  }

  // ----- The answers -----

  /** The answer for an offering, read off the history with no cache and no printed key in sight. */
  ghost predicate HistoryUnavailable(config: Config, start: int, steps: seq<Step>,
                                     group: string, sku: Sku, zone: string, capacityType: string) {
    var now := Clock(start, steps);
    var chain := Chain(config, start, steps, FoldFamily(FamilyKeyOf(group, sku, zone, capacityType)));
    || Stands(StandingMark(config, start, steps, SkuZone(sku.name, zone)), now)
    || (capacityType == SPOT && Stands(StandingMark(config, start, steps, AllSpot), now))
    || (ChainLive(chain, now) && exists m :: m in chain && m.cpuCount <= CpuCount(sku))
    || Stands(StandingMark(config, start, steps, SingleKeyOf(group, sku, zone, capacityType)), now)
  }

  lemma FoldKeepsPrint(k: FamilyKey)
    requires WfFamily(k)
    ensures WfFamily(FoldFamily(k)) && FoldFamily(FoldFamily(k)) == FoldFamily(k)
    ensures PrintFamily(FoldFamily(k)) == PrintFamily(k)
  {
    ToLowerKeepsFree(k.scope, ':');
    ToLowerKeepsFree(k.family, ':');
    ToLowerKeepsFree(k.zone, ':');
    ToLowerKeepsFree(k.capacityType, ':');
    PrintFamilyInjective(FoldFamily(k), k);
  }

  /** The refinement theorem: after any run from empty caches, every answer is the history's. */
  lemma AnswersFollowHistory(s: State, steps: seq<Step>, group: string, sku: Sku, zone: string, capacityType: string)
    requires Empty(s) && IsRun(s, steps) && WfSteps(steps)
    requires WfOffering(group, sku, zone, capacityType) && WHOLE_FAMILY_BLOCKED <= CpuCount(sku)
    ensures IsUnavailable(Run(s, steps), CapacityReservationGroupScope(group), sku, zone, capacityType)
       <==> HistoryUnavailable(s.config, s.now, steps, group, sku, zone, capacityType)
  {
    ScopeIsColonFree(group);
    ClockFollows(s, steps);
    SingleFollowsHistory(s, steps, SkuZone(sku.name, zone));
    SingleFollowsHistory(s, steps, AllSpot);
    SingleFollowsHistory(s, steps, SingleKeyOf(group, sku, zone, capacityType));
    var k := FamilyKeyOf(group, sku, zone, capacityType);
    FoldKeepsPrint(k);
    FamilyFollowsHistory(s, steps, FoldFamily(k));
    var chain := Chain(s.config, s.now, steps, FoldFamily(k));
    if ChainLive(chain, Clock(s.now, steps)) {
      MinCpuIsMinimum(chain, CpuCount(sku));
      MinCpuIsMinimum(chain, WHOLE_FAMILY_BLOCKED);
    }
  }

  // ----- Scopes do not leak -----

  /** The steps an offering's answer may depend on. */
  predicate Relevant(step: Step, scope: string, spot: bool) {
    match step
    case MarkOffering(g, _, _, _, _) => CapacityReservationGroupScope(g) == scope
    case MarkFamily(g, _, _, _, _) => CapacityReservationGroupScope(g) == scope
    case InvalidateGroup(g) => CapacityReservationGroupScope(g) == scope
    case MarkSpot(_) => spot
    case MarkSkuZone(_, _, _) => true
    case FlushAll => true
    case Tick(_) => true
    case JanitorSingle => false
    case JanitorFamily => false
    case Publish(_) => false
  }

  function Project(steps: seq<Step>, scope: string, spot: bool): seq<Step> {
    if steps == [] then []
    else
      var front, last := Project(steps[..|steps| - 1], scope, spot), steps[|steps| - 1];
      if Relevant(last, scope, spot) then front + [last] else front
  }

  lemma {:induction false} ProjectionKeepsClock(start: int, steps: seq<Step>, scope: string, spot: bool)
    ensures Clock(start, Project(steps, scope, spot)) == Clock(start, steps)
  {
    if steps != [] {
      var front, last := steps[..|steps| - 1], steps[|steps| - 1];
      ProjectionKeepsClock(start, front, scope, spot);
      var kept := Project(steps, scope, spot);
      if Relevant(last, scope, spot) {
        assert kept[..|kept| - 1] == Project(front, scope, spot);
      }
    }
  }

  /** Single keys whose marks survive the projection. */
  predicate KeepsKey(k: SingleKey, scope: string, spot: bool) {
    match k
    case SkuZone(_, _) => true
    case AllSpot => spot
    case Offering(itsScope, _, _, _) => itsScope == scope
  }

  lemma {:induction false} ProjectionKeepsMark(config: Config, start: int, steps: seq<Step>, scope: string, spot: bool, k: SingleKey)
    requires KeepsKey(k, scope, spot)
    ensures StandingMark(config, start, Project(steps, scope, spot), k) == StandingMark(config, start, steps, k)
  {
    if steps != [] {
      var front, last := steps[..|steps| - 1], steps[|steps| - 1];
      ProjectionKeepsMark(config, start, front, scope, spot, k);
      ProjectionKeepsClock(start, front, scope, spot);
      var kept := Project(steps, scope, spot);
      if Relevant(last, scope, spot) {
        assert kept[..|kept| - 1] == Project(front, scope, spot);
      } else {
        assert SingleMarked(last) != Some(k) && !Clears(last, ScopeOf(k));
      }
    }
  }

  lemma {:induction false} ProjectionKeepsChain(config: Config, start: int, steps: seq<Step>, scope: string, spot: bool, k: FamilyKey)
    requires k.scope == scope
    ensures Chain(config, start, Project(steps, scope, spot), k) == Chain(config, start, steps, k)
  {
    if steps != [] {
      var front, last := steps[..|steps| - 1], steps[|steps| - 1];
      ProjectionKeepsChain(config, start, front, scope, spot, k);
      ProjectionKeepsClock(start, front, scope, spot);
      var kept := Project(steps, scope, spot);
      if Relevant(last, scope, spot) {
        assert kept[..|kept| - 1] == Project(front, scope, spot);
      } else {
        IrrelevantToFamily(last, scope, spot, k);
      }
    }
  }

  lemma IrrelevantToFamily(step: Step, scope: string, spot: bool, k: FamilyKey)
    requires !Relevant(step, scope, spot) && k.scope == scope
    ensures !MarksFamily(step, k)
    ensures !Clears(step, scope)
  {
    if step.MarkOffering? || step.MarkFamily? {
      ToLowerIdempotent(step.group);
    }
  }

  lemma {:induction false} ProjectionRuns(s: State, steps: seq<Step>, scope: string, spot: bool)
    requires WfSteps(steps)
    ensures IsRun(s, Project(steps, scope, spot)) && WfSteps(Project(steps, scope, spot))
  {
    if steps != [] {
      ProjectionRuns(s, steps[..|steps| - 1], scope, spot);
      var kept := Project(steps, scope, spot);
      if Relevant(steps[|steps| - 1], scope, spot) {
        assert kept[..|kept| - 1] == Project(steps[..|steps| - 1], scope, spot);
      }
    }
  }

  /**
   Non-interference: striking every other scope's marks and invalidations from a run (and
   the spot marks too, for an offering that is not spot) leaves the answer unchanged. In
   particular no sequence of unreserved or other-group marks can make a group's on-demand
   offering unavailable.
   */
  lemma ScopesDoNotInterfere(s: State, steps: seq<Step>, group: string, sku: Sku, zone: string, capacityType: string)
    requires Empty(s) && IsRun(s, steps) && WfSteps(steps)
    requires WfOffering(group, sku, zone, capacityType) && WHOLE_FAMILY_BLOCKED <= CpuCount(sku)
    ensures var scope := CapacityReservationGroupScope(group);
      var kept := Project(steps, scope, capacityType == SPOT);
      && IsRun(s, kept)
      && (IsUnavailable(Run(s, steps), scope, sku, zone, capacityType) <==> IsUnavailable(Run(s, kept), scope, sku, zone, capacityType))
  {
    var scope := CapacityReservationGroupScope(group);
    var kept := Project(steps, scope, capacityType == SPOT);
    ProjectionRuns(s, steps, scope, capacityType == SPOT);
    var spot := capacityType == SPOT;
    ProjectionKeepsClock(s.now, steps, scope, spot);
    ProjectionKeepsMark(s.config, s.now, steps, scope, spot, SkuZone(sku.name, zone));
    ProjectionKeepsMark(s.config, s.now, steps, scope, spot, SingleKeyOf(group, sku, zone, capacityType));
    if spot {
      ProjectionKeepsMark(s.config, s.now, steps, scope, spot, AllSpot);
    }
    AnswersFollowHistory(s, steps, group, sku, zone, capacityType);
    AnswersFollowHistory(s, kept, group, sku, zone, capacityType);
    ToLowerIdempotent(group);
    ProjectionKeepsChain(s.config, s.now, steps, scope, spot, FoldFamily(FamilyKeyOf(group, sku, zone, capacityType)));
  }

  // ----- Every refusal has a cause -----

  /** Step `i` is a mark whose TTL has not run out, and nothing since has cleared its scope. */
  predicate InForce(steps: seq<Step>, i: nat, scope: string, defaultTtl: int, start: int)
    requires i < |steps| && (SingleMarked(steps[i]).Some? || FamilyMarked(steps[i]).Some?)
  {
    && !Expired(ExpiryFor(steps[i].ttl, defaultTtl, Clock(start, steps[..i])), Clock(start, steps))
    && forall j :: i < j < |steps| ==> !Clears(steps[j], scope)
  }

  ghost predicate MarkedAt(config: Config, start: int, steps: seq<Step>, k: SingleKey, i: nat) {
    i < |steps| && SingleMarked(steps[i]) == Some(k) && InForce(steps, i, ScopeOf(k), config.singleTtl, start)
  }

  ghost predicate FamilyMarkedAt(config: Config, start: int, steps: seq<Step>, k: FamilyKey, i: nat) {
    && i < |steps| && MarksFamily(steps[i], k)
    && InForce(steps, i, k.scope, config.familyTtl, start)
  }

  /** A standing expiry was written by some mark of the key with no clearing step after it. */
  lemma {:induction false} StandingMarkOrigin(config: Config, start: int, steps: seq<Step>, k: SingleKey) returns (i: nat)
    requires StandingMark(config, start, steps, k).Some?
    ensures i < |steps| && SingleMarked(steps[i]) == Some(k)
    ensures StandingMark(config, start, steps, k).value == ExpiryFor(steps[i].ttl, config.singleTtl, Clock(start, steps[..i]))
    ensures forall j :: i < j < |steps| ==> SingleMarked(steps[j]) != Some(k) && !Clears(steps[j], ScopeOf(k))
  {
    var front, last := steps[..|steps| - 1], steps[|steps| - 1];
    if SingleMarked(last) == Some(k) {
      i := |steps| - 1;
    } else {
      i := StandingMarkOrigin(config, start, front, k);
      assert front[..i] == steps[..i];
    }
  }

  /** The last mark of a chain, likewise. */
  lemma {:induction false} ChainOrigin(config: Config, start: int, steps: seq<Step>, k: FamilyKey) returns (i: nat)
    requires Chain(config, start, steps, k) != []
    ensures i < |steps| && MarksFamily(steps[i], k)
    ensures var chain := Chain(config, start, steps, k);
      chain[|chain| - 1].expiry == ExpiryFor(steps[i].ttl, config.familyTtl, Clock(start, steps[..i]))
    ensures forall j :: i < j < |steps| ==> !MarksFamily(steps[j], k) && !Clears(steps[j], k.scope)
  {
    var front, last := steps[..|steps| - 1], steps[|steps| - 1];
    if MarksFamily(last, k) {
      i := |steps| - 1;
    } else {
      i := ChainOrigin(config, start, front, k);
      assert front[..i] == steps[..i];
    }
  }

  /**
   An offering other than spot read through a group's view is unavailable only because of a
   mark still in force: on its SKU and zone, on the offering itself in the same group, or on
   its family in the same group, letter case of the group aside.
   */
  lemma GroupRefusalHasCause(s: State, steps: seq<Step>, group: string, sku: Sku, zone: string, capacityType: string)
    requires Empty(s) && IsRun(s, steps) && WfSteps(steps)
    requires WfOffering(group, sku, zone, capacityType) && WHOLE_FAMILY_BLOCKED <= CpuCount(sku)
    requires capacityType != SPOT && CapacityReservationGroupScope(group) != UNRESERVED
    requires IsUnavailable(Run(s, steps), CapacityReservationGroupScope(group), sku, zone, capacityType)
    ensures exists i ::
      || MarkedAt(s.config, s.now, steps, SkuZone(sku.name, zone), i)
      || MarkedAt(s.config, s.now, steps, SingleKeyOf(group, sku, zone, capacityType), i)
      || FamilyMarkedAt(s.config, s.now, steps, FoldFamily(FamilyKeyOf(group, sku, zone, capacityType)), i)
  {
    AnswersFollowHistory(s, steps, group, sku, zone, capacityType);
    var now := Clock(s.now, steps);
    var f := FoldFamily(FamilyKeyOf(group, sku, zone, capacityType));
    if Stands(StandingMark(s.config, s.now, steps, SkuZone(sku.name, zone)), now) {
      var i := StandingMarkOrigin(s.config, s.now, steps, SkuZone(sku.name, zone));
      assert MarkedAt(s.config, s.now, steps, SkuZone(sku.name, zone), i);
    } else if ChainLive(Chain(s.config, s.now, steps, f), now) {
      var i := ChainOrigin(s.config, s.now, steps, f);
      assert FamilyMarkedAt(s.config, s.now, steps, f, i);
    } else {
      var i := StandingMarkOrigin(s.config, s.now, steps, SingleKeyOf(group, sku, zone, capacityType));
      assert MarkedAt(s.config, s.now, steps, SingleKeyOf(group, sku, zone, capacityType), i);
    }
  }
}
