/**
 The unavailable-offerings cache as a state machine: two TTL caches under printed keys, a
 clock, and the sequence number that downstream code uses to detect changes.

 A change of the caches and the addition to the sequence number that reports it are
 separate actions in the source (eviction callbacks run after the deletion, markers add
 after they write), and readers take no lock. `owed` counts reported-but-not-yet-added
 changes; `Publish` adds some of them.
 */
module OfferingsModel {
  import opened TtlCache
  import opened OfferingKeys
  import opened Text

  const WHOLE_FAMILY_BLOCKED := -1

  /** The parts of a skewer SKU the cache reads; `vcpu` is `None` when it does not parse. */
  datatype Sku = Sku(name: string, family: string, vcpu: Option<int>)

  function CpuCount(sku: Sku): int {
    if sku.vcpu.Some? then sku.vcpu.value else 0
  }

  /** Default TTLs the two caches were created with. */
  datatype Config = Config(singleTtl: int, familyTtl: int)

  datatype State = State(
    config: Config,
    single: Cache<()>,
    family: Cache<int>,
    now: int,
    seqNum: nat,
    owed: nat)

  // ----- Reads -----

  predicate SingleLive(s: State, key: string) {
    Live(s.single, key, s.now)
  }

  predicate IsFamilyUnavailable(s: State, scope: string, sku: Sku, zone: string, capacityType: string) {
    var key := VmFamilyKey(scope, sku.family, zone, capacityType);
    && Live(s.family, key, s.now)
    && (s.family[key].value == WHOLE_FAMILY_BLOCKED || CpuCount(sku) >= s.family[key].value)
  }

  predicate IsUnavailable(s: State, scope: string, sku: Sku, zone: string, capacityType: string) {
    || SingleLive(s, SkuZoneKey(sku.name, zone))
    || (capacityType == SPOT && SingleLive(s, SpotKey()))
    || IsFamilyUnavailable(s, scope, sku, zone, capacityType)
    || SingleLive(s, SingleInstanceKey(scope, sku.name, zone, capacityType))
  }

  // ----- Writes -----

  function PutSingle(s: State, key: string, ttl: int): State {
    s.(single := s.single[key := Entry((), ExpiryFor(ttl, s.config.singleTtl, s.now))])
  }

  function PutFamily(s: State, key: string, cpuCount: int, ttl: int): State {
    s.(family := s.family[key := Entry(cpuCount, ExpiryFor(ttl, s.config.familyTtl, s.now))])
  }

  function Owe(s: State, changed: bool): State {
    if changed then s.(owed := s.owed + 1) else s
  }

  /** The stored threshold survives when it already is at least as restrictive. */
  predicate KeepsThreshold(s: State, key: string, cpuCount: int) {
    Live(s.family, key, s.now) && s.family[key].value <= cpuCount
  }

  predicate FamilyChanges(s: State, scope: string, sku: Sku, zone: string, capacityType: string, cpuCount: int) {
    sku.family != "" && !KeepsThreshold(s, VmFamilyKey(scope, sku.family, zone, capacityType), cpuCount)
  }

  function MarkFamilyAt(s: State, scope: string, sku: Sku, zone: string, capacityType: string, cpuCount: int, ttl: int): State {
    var key := VmFamilyKey(scope, sku.family, zone, capacityType);
    if sku.family == "" then s
    else PutFamily(s, key, if KeepsThreshold(s, key, cpuCount) then s.family[key].value else cpuCount, ttl)
  }

  function MarkFamilyUnavailable(s: State, scope: string, sku: Sku, zone: string, capacityType: string, ttl: int): State {
    Owe(MarkFamilyAt(s, scope, sku, zone, capacityType, WHOLE_FAMILY_BLOCKED, ttl),
        FamilyChanges(s, scope, sku, zone, capacityType, WHOLE_FAMILY_BLOCKED))
  }

  function MarkUnavailable(s: State, scope: string, sku: Sku, zone: string, capacityType: string, ttl: int): State {
    var s1 := PutSingle(s, SingleInstanceKey(scope, sku.name, zone, capacityType), ttl);
    var wasUnavailable := IsUnavailable(s, scope, sku, zone, capacityType);
    if scope == UNRESERVED then
      Owe(MarkFamilyAt(s1, scope, sku, zone, capacityType, CpuCount(sku), ttl),
          !wasUnavailable || FamilyChanges(s1, scope, sku, zone, capacityType, CpuCount(sku)))
    else
      Owe(s1, !wasUnavailable)
  }

  function MarkKey(s: State, key: string, ttl: int): State {
    Owe(PutSingle(s, key, ttl), !SingleLive(s, key))
  }

  function MarkSpotUnavailable(s: State, ttl: int): State {
    MarkKey(s, SpotKey(), ttl)
  }

  function MarkSkuZoneUnavailable(s: State, name: string, zone: string, ttl: int): State {
    MarkKey(s, SkuZoneKey(name, zone), ttl)
  }

  function Flush(s: State): State {
    s.(single := map[], family := map[], owed := s.owed + 1)
  }

  /** Live entries of the group; expired ones are not listed by `Items` and stay behind. */
  function GroupItems<V>(m: Cache<V>, prefix: string, now: int): set<string> {
    set key | key in m && Live(m, key, now) && HasPrefix(key, prefix)
  }

  function Invalidate(s: State, id: string): State {
    var scope := CapacityReservationGroupScope(id);
    if scope == UNRESERVED then s
    else
      var prefix := GroupPrefix(scope);
      var one, fam := GroupItems(s.single, prefix, s.now), GroupItems(s.family, prefix, s.now);
      s.(single := s.single - one, family := s.family - fam, owed := s.owed + |one| + |fam|)
  }

  // ----- The environment -----

  function SweepSingle(s: State): State {
    var gone := ExpiredKeys(s.single, s.now);
    s.(single := s.single - gone, owed := s.owed + |gone|)
  }

  function SweepFamily(s: State): State {
    var gone := ExpiredKeys(s.family, s.now);
    s.(family := s.family - gone, owed := s.owed + |gone|)
  }

  /** Every owed addition made. */
  function Settle(s: State): State {
    s.(seqNum := s.seqNum + s.owed, owed := 0)
  }

  /** Number of changes reported so far, added or not. */
  function Changes(s: State): nat {
    s.seqNum + s.owed
  }

  const TWO_64 := 0x1_0000_0000_0000_0000

  /** What readers see of the counter, a 64-bit word. */
  function SeqNum(s: State): nat {
    s.seqNum % TWO_64
  }

  // ----- Runs -----

  /** Marks name the group they are recorded for; the empty id is the unreserved view. */
  datatype Step =
    | MarkOffering(group: string, sku: Sku, zone: string, capacityType: string, ttl: int)
    | MarkFamily(group: string, sku: Sku, zone: string, capacityType: string, ttl: int)
    | MarkSpot(ttl: int)
    | MarkSkuZone(name: string, zone: string, ttl: int)
    | FlushAll
    | InvalidateGroup(group: string)
    | Tick(elapsed: nat)
    | JanitorSingle
    | JanitorFamily
    | Publish(count: nat)

  predicate Enabled(s: State, step: Step) {
    step.Publish? ==> step.count <= s.owed
  }

  function Apply(s: State, step: Step): State
    requires Enabled(s, step)
  {
    match step
    case MarkOffering(g, sku, zone, ct, ttl) => MarkUnavailable(s, CapacityReservationGroupScope(g), sku, zone, ct, ttl)
    case MarkFamily(g, sku, zone, ct, ttl) => MarkFamilyUnavailable(s, CapacityReservationGroupScope(g), sku, zone, ct, ttl)
    case MarkSpot(ttl) => MarkSpotUnavailable(s, ttl)
    case MarkSkuZone(name, zone, ttl) => MarkSkuZoneUnavailable(s, name, zone, ttl)
    case FlushAll => Flush(s)
    case InvalidateGroup(g) => Invalidate(s, g)
    case Tick(elapsed) => s.(now := s.now + elapsed)
    case JanitorSingle => SweepSingle(s)
    case JanitorFamily => SweepFamily(s)
    case Publish(count) => s.(seqNum := s.seqNum + count, owed := s.owed - count)
  }

  predicate IsRun(s: State, steps: seq<Step>)
    decreases |steps|, 0
  {
    steps == [] ||
    (IsRun(s, steps[..|steps| - 1]) && Enabled(Run(s, steps[..|steps| - 1]), steps[|steps| - 1]))
  }

  function Run(s: State, steps: seq<Step>): State
    requires IsRun(s, steps)
    decreases |steps|, 1
  {
    if steps == [] then s
    else Apply(Run(s, steps[..|steps| - 1]), steps[|steps| - 1])
  }

  /** What one call of the cache object adds to a history: its step, then all owed additions. */
  function CallOf(s: State, step: Step): seq<Step>
    requires Enabled(s, step)
  {
    [step, Publish(Apply(s, step).owed)]
  }

  lemma RunAppend(s: State, steps: seq<Step>, step: Step)
    requires IsRun(s, steps) && Enabled(Run(s, steps), step)
    ensures IsRun(s, steps + [step]) && Run(s, steps + [step]) == Apply(Run(s, steps), step)
  {
    var all := steps + [step];
    assert all[..|all| - 1] == steps && all[|all| - 1] == step;
  }

  /** Calls are runs: a call's step followed by its additions settles the state. */
  lemma CallExtendsRun(s: State, steps: seq<Step>, step: Step)
    requires IsRun(s, steps) && Enabled(Run(s, steps), step)
    ensures var all := steps + CallOf(Run(s, steps), step);
      IsRun(s, all) && Run(s, all) == Settle(Apply(Run(s, steps), step))
  {
    var t := Apply(Run(s, steps), step);
    RunAppend(s, steps, step);
    RunAppend(s, steps + [step], Publish(t.owed));
    assert steps + CallOf(Run(s, steps), step) == steps + [step] + [Publish(t.owed)];
  }

  // ----- Well-formed arguments -----

  predicate WfOffering(group: string, sku: Sku, zone: string, capacityType: string) {
    Free(group, ':') && Free(sku.family, ':') && WfPlacement(sku.name, zone, capacityType)
  }

  predicate WfStep(step: Step) {
    match step
    case MarkOffering(g, sku, zone, ct, _) => WfOffering(g, sku, zone, ct)
    case MarkFamily(g, sku, zone, ct, _) => WfOffering(g, sku, zone, ct)
    case MarkSkuZone(name, zone, _) => Free(name, ':') && Free(zone, ':')
    case InvalidateGroup(g) => Free(g, ':')
    case _ => true
  }

  predicate WfSteps(steps: seq<Step>) {
    forall i :: 0 <= i < |steps| ==> WfStep(steps[i])
  }

  function SingleKeyOf(group: string, sku: Sku, zone: string, capacityType: string): SingleKey {
    Offering(CapacityReservationGroupScope(group), sku.name, zone, capacityType)
  }

  function FamilyKeyOf(group: string, sku: Sku, zone: string, capacityType: string): FamilyKey {
    Family(CapacityReservationGroupScope(group), sku.family, zone, capacityType)
  }

  lemma ScopeIsColonFree(group: string)
    requires Free(group, ':')
    ensures Free(CapacityReservationGroupScope(group), ':')
    ensures ToLower(CapacityReservationGroupScope(group)) == CapacityReservationGroupScope(group)
  {
    ToLowerKeepsFree(group, ':');
    ToLowerIdempotent(group);
  }
}
