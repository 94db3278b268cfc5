/**
 In-flight quota accounting: creates and deletes observed between two refreshes of the Azure
 usage data are kept as signed adjustments per instance, with a running total per quota
 name. The state machine covers refreshes that overlap with creates, deletes and resets.
 */
module QuotaModel {
  import opened TtlCache

  /** 25 and 10 minutes, in seconds. */
  const TOMBSTONE_TTL := 1500
  const CLEANUP_INTERVAL := 600
  const MAX_TOMBSTONES := 50000

  datatype Usage = Usage(limit: Option<int>, current: Option<int>)

  datatype Adjustment = Adjustment(quotaName: string, vCpus: int, seqNum: nat)

  /** Pending adjustments by instance, their totals by quota name, and the sequence number. */
  datatype Ledger = Ledger(adjustments: map<string, Adjustment>, byQuota: map<string, int>, seqNum: nat)

  /** When each instance was last seen deleted, and when old entries were last dropped. */
  datatype Graves = Graves(lastSeen: map<string, int>, lastCleanup: Option<int>)

  /** `flight` is the watermark held by the refresh that is under way, if any. */
  datatype State = State(
    usages: map<string, Option<Usage>>,
    familyToQuota: map<string, string>,
    initialized: bool,
    generation: nat,
    refreshing: bool,
    ledger: Ledger,
    graves: Graves,
    flight: Option<nat>)

  function QuotaName(s: State, family: string): string {
    if family in s.familyToQuota then s.familyToQuota[family] else family
  }

  predicate HasUsage(s: State, quotaName: string) {
    && quotaName in s.usages && s.usages[quotaName].Some?
    && s.usages[quotaName].value.limit.Some? && s.usages[quotaName].value.current.Some?
  }

  function Get(m: map<string, int>, key: string): int {
    if key in m then m[key] else 0
  }

  /** Reads fail open: no family, no vCPU count or no usable usage entry means quota is assumed. */
  predicate HasQuotaFor(s: State, family: string, vCpus: Option<int>) {
    || family == "" || vCpus.None?
    || !HasUsage(s, QuotaName(s, family))
    || var q := QuotaName(s, family);
       var used := s.usages[q].value.current.value + Get(s.ledger.byQuota, q);
       vCpus.value <= s.usages[q].value.limit.value - (if used < 0 then 0 else used)
  }

  // ----- Totals -----

  function Share(adjustments: map<string, Adjustment>, key: string, quotaName: string): int
    requires key in adjustments
  {
    if adjustments[key].quotaName == quotaName then adjustments[key].vCpus else 0
  }

  ghost function SumOver(keys: set<string>, adjustments: map<string, Adjustment>, quotaName: string): int
    requires keys <= adjustments.Keys
  {
    if keys == {} then 0
    else
      var key :| key in keys;
      Share(adjustments, key, quotaName) + SumOver(keys - {key}, adjustments, quotaName)
  }

  /** Sum of the adjustments under one quota name. */
  ghost function Total(adjustments: map<string, Adjustment>, quotaName: string): int {
    SumOver(adjustments.Keys, adjustments, quotaName)
  }

  lemma {:induction false} SumTakeOut(keys: set<string>, adjustments: map<string, Adjustment>, quotaName: string, key: string)
    requires keys <= adjustments.Keys && key in keys
    ensures SumOver(keys, adjustments, quotaName) == Share(adjustments, key, quotaName) + SumOver(keys - {key}, adjustments, quotaName)
    decreases |keys|
  {
    var k :| k in keys && SumOver(keys, adjustments, quotaName) == Share(adjustments, k, quotaName) + SumOver(keys - {k}, adjustments, quotaName);
    if k != key {
      SumTakeOut(keys - {k}, adjustments, quotaName, key);
      SumTakeOut(keys - {key}, adjustments, quotaName, k);
      assert keys - {k} - {key} == keys - {key} - {k};
    }
  }

  lemma {:induction false} SumAgrees(keys: set<string>, a: map<string, Adjustment>, b: map<string, Adjustment>, quotaName: string)
    requires keys <= a.Keys && keys <= b.Keys && forall k :: k in keys ==> a[k] == b[k]
    ensures SumOver(keys, a, quotaName) == SumOver(keys, b, quotaName)
    decreases |keys|
  {
    if keys != {} {
      var k :| k in keys;
      SumTakeOut(keys, a, quotaName, k);
      SumTakeOut(keys, b, quotaName, k);
      SumAgrees(keys - {k}, a, b, quotaName);
    }
  }

  lemma TotalAdd(a: map<string, Adjustment>, key: string, x: Adjustment, quotaName: string)
    requires key !in a
    ensures Total(a[key := x], quotaName) == Total(a, quotaName) + if x.quotaName == quotaName then x.vCpus else 0
  {
    var b := a[key := x];
    SumTakeOut(b.Keys, b, quotaName, key);
    assert b.Keys - {key} == a.Keys;
    SumAgrees(a.Keys, a, b, quotaName);
  }

  lemma TotalRemove(a: map<string, Adjustment>, key: string, quotaName: string)
    requires key in a
    ensures Total(a - {key}, quotaName) == Total(a, quotaName) - Share(a, key, quotaName)
  {
    SumTakeOut(a.Keys, a, quotaName, key);
    var b := a - {key};
    assert b.Keys == a.Keys - {key};
    SumAgrees(b.Keys, a, b, quotaName);
  }

  lemma {:induction false} NonPositiveSum(keys: set<string>, a: map<string, Adjustment>, quotaName: string)
    requires keys <= a.Keys && forall k :: k in keys ==> a[k].vCpus <= 0
    ensures SumOver(keys, a, quotaName) <= 0
    decreases |keys|
  {
    if keys != {} {
      var k :| k in keys;
      SumTakeOut(keys, a, quotaName, k);
      NonPositiveSum(keys - {k}, a, quotaName);
    }
  }

  // ----- Operations -----

  function Bump(l: Ledger, quotaName: string, delta: int): Ledger {
    l.(byQuota := l.byQuota[quotaName := Get(l.byQuota, quotaName) + delta])
  }

  function Record(l: Ledger, key: string, quotaName: string, vCpus: int): Ledger {
    Bump(l.(adjustments := l.adjustments[key := Adjustment(quotaName, vCpus, l.seqNum)]), quotaName, vCpus)
  }

  function TakeBack(l: Ledger, key: string): Ledger
    requires key in l.adjustments
  {
    Bump(l.(adjustments := l.adjustments - {key}), l.adjustments[key].quotaName, -l.adjustments[key].vCpus)
  }

  function Next(l: Ledger): Ledger {
    l.(seqNum := l.seqNum + 1)
  }

  /**
   A delete takes back the instance's create if one is pending (and during a refresh is
   recorded as well), does nothing on top of a pending delete, and is recorded otherwise.
   */
  function EnterDelete(l: Ledger, key: string, quotaName: string, vCpus: int, refreshing: bool): Ledger {
    if key !in l.adjustments then Record(Next(l), key, quotaName, -vCpus)
    else if l.adjustments[key].vCpus < 0 then l
    else if refreshing then Record(TakeBack(Next(l), key), key, quotaName, -vCpus)
    else TakeBack(Next(l), key)
  }

  predicate AcceptsCreate(s: State, expected: nat, key: string, family: string, vCpus: int) {
    && s.initialized && !s.refreshing && expected == s.generation && vCpus > 0
    && HasUsage(s, QuotaName(s, family)) && key !in s.ledger.adjustments
  }

  function RecordCreate(s: State, expected: nat, key: string, family: string, vCpus: int): State {
    if !AcceptsCreate(s, expected, key, family, vCpus) then s
    else
      s.(graves := s.graves.(lastSeen := s.graves.lastSeen - {key}),
         ledger := Record(Next(s.ledger), key, QuotaName(s, family), vCpus))
  }

  function Prune(g: Graves, now: int): Graves {
    if g.lastCleanup.Some? && now - g.lastCleanup.value < CLEANUP_INTERVAL then g
    else Graves(map k | k in g.lastSeen && now - g.lastSeen[k] <= TOMBSTONE_TTL :: g.lastSeen[k], Some(now))
  }

  /** An entry no other is older than; the map's iteration order decides between several. */
  predicate IsOldest(lastSeen: map<string, int>, victim: string) {
    victim in lastSeen && forall k :: k in lastSeen ==> lastSeen[victim] <= lastSeen[k]
  }

  /** A full set loses its oldest entry first. */
  function Bury(g: Graves, key: string, now: int, victim: string): Graves {
    var others := if |g.lastSeen| >= MAX_TOMBSTONES then g.lastSeen - {victim} else g.lastSeen;
    g.(lastSeen := others[key := now])
  }

  predicate Suppressed(g: Graves, key: string, now: int) {
    key in g.lastSeen && now - g.lastSeen[key] <= TOMBSTONE_TTL
  }

  predicate AcceptsDelete(s: State, family: string, vCpus: int) {
    s.initialized && vCpus > 0 && HasUsage(s, QuotaName(s, family))
  }

  /** The delete is accepted, is no duplicate, and finds the tombstones full. */
  predicate Evicts(s: State, key: string, family: string, vCpus: int, now: int) {
    var g := Prune(s.graves, now);
    AcceptsDelete(s, family, vCpus) && !Suppressed(g, key, now) && |g.lastSeen - {key}| >= MAX_TOMBSTONES
  }

  /** Whatever is evicted is an oldest entry. */
  predicate VictimIsOldest(s: State, key: string, family: string, vCpus: int, now: int, victim: string) {
    Evicts(s, key, family, vCpus, now) ==> IsOldest(Prune(s.graves, now).lastSeen - {key}, victim)
  }

  function RecordDelete(s: State, key: string, family: string, vCpus: int, now: int, victim: string): State {
    var g := Prune(s.graves, now);
    if !AcceptsDelete(s, family, vCpus) then s.(graves := g)
    else if Suppressed(g, key, now) then s.(graves := g.(lastSeen := g.lastSeen[key := now]))
    else
      s.(graves := Bury(g.(lastSeen := g.lastSeen - {key}), key, now, victim),
         ledger := EnterDelete(s.ledger, key, QuotaName(s, family), vCpus, s.refreshing))
  }

  function BeginRefresh(s: State, now: int): State {
    s.(graves := Prune(s.graves, now), refreshing := true, flight := Some(s.ledger.seqNum))
  }

  function FailRefresh(s: State): State {
    s.(refreshing := false, flight := None)
  }

  function Surviving(adjustments: map<string, Adjustment>, watermark: nat): map<string, Adjustment> {
    map k | k in adjustments && adjustments[k].seqNum > watermark :: adjustments[k]
  }

  function QuotaNames(adjustments: map<string, Adjustment>): set<string> {
    set k | k in adjustments :: adjustments[k].quotaName
  }

  ghost function Totals(adjustments: map<string, Adjustment>): map<string, int> {
    map q | q in QuotaNames(adjustments) :: Total(adjustments, q)
  }

  ghost function Publish(s: State, usages: map<string, Option<Usage>>, familyToQuota: map<string, string>): State
    requires s.flight.Some?
  {
    var left := Surviving(s.ledger.adjustments, s.flight.value);
    s.(usages := usages, familyToQuota := familyToQuota, initialized := true, generation := s.generation + 1,
       ledger := Ledger(left, Totals(left), s.ledger.seqNum + 1), refreshing := false, flight := None)
  }

  predicate AlreadyReset(s: State) {
    && !s.initialized && s.usages == map[] && s.familyToQuota == map[]
    && s.ledger.adjustments == map[] && s.graves.lastSeen == map[]
  }

  /** A reset does not stop a refresh under way. */
  function Reset(s: State): State {
    if AlreadyReset(s) then s
    else State(map[], map[], false, s.generation + 1, false, Ledger(map[], map[], s.ledger.seqNum + 1), Graves(map[], None), s.flight)
  }

  // ----- Runs -----

  datatype Step =
    | Create(expected: nat, key: string, family: string, vCpus: int)
    | Delete(key: string, family: string, vCpus: int, now: int, victim: string)
    | Begin(now: int)
    | Fail
    | Arrive(usages: map<string, Option<Usage>>, familyToQuota: map<string, string>)
    | Clear

  /** Refreshes are serialised by their own lock; everything else may happen during one. */
  predicate Enabled(s: State, step: Step) {
    match step
    case Delete(key, family, vCpus, now, victim) => VictimIsOldest(s, key, family, vCpus, now, victim)
    case Begin(_) => s.flight.None?
    case Fail => s.flight.Some?
    case Arrive(_, _) => s.flight.Some?
    case _ => true
  }

  ghost function Apply(s: State, step: Step): State
    requires Enabled(s, step)
  {
    match step
    case Create(expected, key, family, vCpus) => RecordCreate(s, expected, key, family, vCpus)
    case Delete(key, family, vCpus, now, victim) => RecordDelete(s, key, family, vCpus, now, victim)
    case Begin(now) => BeginRefresh(s, now)
    case Fail => FailRefresh(s)
    case Arrive(usages, families) => Publish(s, usages, families)
    case Clear => Reset(s)
  }

  ghost predicate IsRun(s: State, steps: seq<Step>)
    decreases |steps|, 0
  {
    steps == [] ||
    (IsRun(s, steps[..|steps| - 1]) && Enabled(Run(s, steps[..|steps| - 1]), steps[|steps| - 1]))
  }

  ghost function Run(s: State, steps: seq<Step>): State
    requires IsRun(s, steps)
    decreases |steps|, 1
  {
    if steps == [] then s else Apply(Run(s, steps[..|steps| - 1]), steps[|steps| - 1])
  }

  function Init(): State {
    State(map[], map[], false, 0, false, Ledger(map[], map[], 0), Graves(map[], None), None)
  }

  // ----- Conservation -----

  /** The running totals are the sums of the adjustments, for every quota name. */
  ghost predicate Balanced(l: Ledger) {
    forall q :: Get(l.byQuota, q) == Total(l.adjustments, q)
  }

  lemma RecordBalanced(l: Ledger, key: string, quotaName: string, vCpus: int)
    requires Balanced(l) && key !in l.adjustments
    ensures Balanced(Record(l, key, quotaName, vCpus))
  {
    var t := Record(l, key, quotaName, vCpus);
    forall q ensures Get(t.byQuota, q) == Total(t.adjustments, q) {
      TotalAdd(l.adjustments, key, Adjustment(quotaName, vCpus, l.seqNum), q);
      assert Get(l.byQuota, q) == Total(l.adjustments, q);
    }
  }

  lemma TakeBackBalanced(l: Ledger, key: string)
    requires Balanced(l) && key in l.adjustments
    ensures Balanced(TakeBack(l, key))
  {
    var t := TakeBack(l, key);
    forall q ensures Get(t.byQuota, q) == Total(t.adjustments, q) {
      TotalRemove(l.adjustments, key, q);
      assert Get(l.byQuota, q) == Total(l.adjustments, q);
    }
  }

  lemma EnterDeleteBalanced(l: Ledger, key: string, quotaName: string, vCpus: int, refreshing: bool)
    requires Balanced(l)
    ensures Balanced(EnterDelete(l, key, quotaName, vCpus, refreshing))
  {
    assert Balanced(Next(l));
    if key !in l.adjustments {
      RecordBalanced(Next(l), key, quotaName, -vCpus);
    } else if l.adjustments[key].vCpus >= 0 {
      TakeBackBalanced(Next(l), key);
      RecordBalanced(TakeBack(Next(l), key), key, quotaName, -vCpus);
    }
  }

  lemma {:induction false} NoShareNoSum(keys: set<string>, a: map<string, Adjustment>, quotaName: string)
    requires keys <= a.Keys && forall k :: k in keys ==> a[k].quotaName != quotaName
    ensures SumOver(keys, a, quotaName) == 0
    decreases |keys|
  {
    if keys != {} {
      var k :| k in keys;
      SumTakeOut(keys, a, quotaName, k);
      NoShareNoSum(keys - {k}, a, quotaName);
    }
  }

  lemma TotalsBalanced(a: map<string, Adjustment>, seqNum: nat)
    ensures Balanced(Ledger(a, Totals(a), seqNum))
  {
    forall q ensures Get(Totals(a), q) == Total(a, q) {
      if q !in QuotaNames(a) {
        assert forall k :: k in a ==> a[k].quotaName in QuotaNames(a);
        NoShareNoSum(a.Keys, a, q);
      }
    }
  }

  lemma StepBalanced(s: State, step: Step)
    requires Enabled(s, step) && Balanced(s.ledger)
    ensures Balanced(Apply(s, step).ledger)
  {
    match step
    case Create(expected, key, family, vCpus) =>
      if AcceptsCreate(s, expected, key, family, vCpus) {
        assert Balanced(Next(s.ledger));
        RecordBalanced(Next(s.ledger), key, QuotaName(s, family), vCpus);
      }
    case Delete(key, family, vCpus, _, _) =>
      EnterDeleteBalanced(s.ledger, key, QuotaName(s, family), vCpus, s.refreshing);
    case Arrive(_, _) =>
      TotalsBalanced(Surviving(s.ledger.adjustments, s.flight.value), s.ledger.seqNum + 1);
    case _ =>
  }

  // ----- The refresh watermark -----

  /** Adjustments carry past sequence numbers; those past the watermark are deletes. */
  predicate Ordered(l: Ledger, flight: Option<nat>) {
    forall k :: k in l.adjustments ==>
      && l.adjustments[k].seqNum <= l.seqNum
      && (flight.Some? && l.adjustments[k].seqNum > flight.value ==> l.adjustments[k].vCpus < 0)
  }

  /** No create is accepted while a refresh is under way, not even after a reset. */
  predicate Guarded(s: State) {
    s.flight.Some? ==> s.flight.value <= s.ledger.seqNum && (s.refreshing || !s.initialized)
  }

  lemma EnterDeleteOrdered(l: Ledger, key: string, quotaName: string, vCpus: int, refreshing: bool, flight: Option<nat>)
    requires Ordered(l, flight) && vCpus > 0
    ensures Ordered(EnterDelete(l, key, quotaName, vCpus, refreshing), flight)
    ensures EnterDelete(l, key, quotaName, vCpus, refreshing).seqNum >= l.seqNum
  {
  }

  lemma CreateOrdered(s: State, expected: nat, key: string, family: string, vCpus: int)
    requires Ordered(s.ledger, s.flight) && Guarded(s)
    ensures var t := RecordCreate(s, expected, key, family, vCpus); Ordered(t.ledger, t.flight) && Guarded(t)
  {
    assert AcceptsCreate(s, expected, key, family, vCpus) ==> s.flight.None?;
  }

  lemma DeleteOrdered(s: State, key: string, family: string, vCpus: int, now: int, victim: string)
    requires Ordered(s.ledger, s.flight) && Guarded(s)
    ensures var t := RecordDelete(s, key, family, vCpus, now, victim); Ordered(t.ledger, t.flight) && Guarded(t)
  {
    if AcceptsDelete(s, family, vCpus) {
      EnterDeleteOrdered(s.ledger, key, QuotaName(s, family), vCpus, s.refreshing, s.flight);
      assert RecordDelete(s, key, family, vCpus, now, victim).flight == s.flight;
    }
  }

  lemma StepOrdered(s: State, step: Step)
    requires Enabled(s, step) && Ordered(s.ledger, s.flight) && Guarded(s)
    ensures Ordered(Apply(s, step).ledger, Apply(s, step).flight) && Guarded(Apply(s, step))
  {
    match step
    case Create(expected, key, family, vCpus) => CreateOrdered(s, expected, key, family, vCpus);
    case Delete(key, family, vCpus, now, victim) => DeleteOrdered(s, key, family, vCpus, now, victim);
    case _ =>
  }

  lemma {:induction false} RunKeepsInvariants(steps: seq<Step>)
    requires IsRun(Init(), steps)
    ensures var s := Run(Init(), steps); Balanced(s.ledger) && Ordered(s.ledger, s.flight) && Guarded(s)
  {
    if steps != [] {
      var front, last := steps[..|steps| - 1], steps[|steps| - 1];
      RunKeepsInvariants(front);
      StepBalanced(Run(Init(), front), last);
      StepOrdered(Run(Init(), front), last);
    }
  }

  // ----- What holds in every run -----

  /** The running total of a quota name is the sum of its pending adjustments, no more and no less. */
  lemma TotalsAreExact(steps: seq<Step>, quotaName: string)
    requires IsRun(Init(), steps)
    ensures var l := Run(Init(), steps).ledger; Get(l.byQuota, quotaName) == Total(l.adjustments, quotaName)
  {
    RunKeepsInvariants(steps);
  }

  /**
   After every run a SKU with a usable usage entry has quota exactly when it fits under the
   limit beside Azure's reported usage plus all pending adjustments of its quota, counted as
   no less than zero.
   */
  lemma QuotaAnswersAreExact(steps: seq<Step>, family: string, vCpus: int)
    requires IsRun(Init(), steps) && family != ""
    requires var s := Run(Init(), steps); HasUsage(s, QuotaName(s, family))
    ensures var s := Run(Init(), steps);
      var q := QuotaName(s, family);
      var usage, pending := s.usages[q].value, Total(s.ledger.adjustments, q);
      HasQuotaFor(s, family, Some(vCpus)) <==>
        vCpus <= usage.limit.value && usage.current.value + pending + vCpus <= usage.limit.value
  {
    TotalsAreExact(steps, QuotaName(Run(Init(), steps), family));
  }

  /**
   A refresh drops every pending create: what survives are deletes recorded while it ran, so
   it never leaves usage above what Azure reported.
   */
  lemma RefreshKeepsOnlyDeletes(steps: seq<Step>, usages: map<string, Option<Usage>>, families: map<string, string>, quotaName: string)
    requires IsRun(Init(), steps) && Run(Init(), steps).flight.Some?
    ensures var s := Run(Init(), steps);
      var l := Publish(s, usages, families).ledger;
      && (forall k :: k in l.adjustments ==>
            l.adjustments[k].vCpus < 0 && l.adjustments[k].seqNum > s.flight.value && l.adjustments[k] == s.ledger.adjustments[k])
      && Get(l.byQuota, quotaName) <= 0
  {
    RunKeepsInvariants(steps);
    var s := Run(Init(), steps);
    var left := Surviving(s.ledger.adjustments, s.flight.value);
    TotalsBalanced(left, s.ledger.seqNum + 1);
    assert Get(Totals(left), quotaName) == Total(left, quotaName);
    NonPositiveSum(left.Keys, left, quotaName);
  }

  /** The parts of the state that quota answers are computed from. */
  predicate SameView(s: State, t: State) {
    s.usages == t.usages && s.familyToQuota == t.familyToQuota && s.ledger == t.ledger
  }

  lemma EnterDeleteCountsUp(l: Ledger, key: string, quotaName: string, vCpus: int, refreshing: bool)
    ensures var m := EnterDelete(l, key, quotaName, vCpus, refreshing);
      l.seqNum <= m.seqNum && (l.seqNum == m.seqNum ==> m == l)
  {
  }

  lemma DeleteCountsUp(s: State, key: string, family: string, vCpus: int, now: int, victim: string)
    ensures var t := RecordDelete(s, key, family, vCpus, now, victim);
      s.ledger.seqNum <= t.ledger.seqNum && (s.ledger.seqNum == t.ledger.seqNum ==> SameView(s, t))
  {
    var q := QuotaName(s, family);
    EnterDeleteCountsUp(s.ledger, key, q, vCpus, s.refreshing);
    var t := RecordDelete(s, key, family, vCpus, now, victim);
    assert t.usages == s.usages && t.familyToQuota == s.familyToQuota;
    assert t.ledger == s.ledger || t.ledger == EnterDelete(s.ledger, key, q, vCpus, s.refreshing);
  }

  lemma StepCountsUp(s: State, step: Step)
    requires Enabled(s, step)
    ensures s.ledger.seqNum <= Apply(s, step).ledger.seqNum
    ensures s.ledger.seqNum == Apply(s, step).ledger.seqNum ==> SameView(s, Apply(s, step))
  {
    if step.Delete? {
      DeleteCountsUp(s, step.key, step.family, step.vCpus, step.now, step.victim);
    } else if step.Create? {
      assert AcceptsCreate(s, step.expected, step.key, step.family, step.vCpus) ==>
        Apply(s, step).ledger.seqNum == s.ledger.seqNum + 1;
    }
  }

  lemma {:induction false} SeqNumCountsUp(s: State, steps: seq<Step>)
    requires IsRun(s, steps)
    ensures s.ledger.seqNum <= Run(s, steps).ledger.seqNum
    ensures s.ledger.seqNum == Run(s, steps).ledger.seqNum ==> SameView(s, Run(s, steps))
  {
    if steps != [] {
      SeqNumCountsUp(s, steps[..|steps| - 1]);
      StepCountsUp(Run(s, steps[..|steps| - 1]), steps[|steps| - 1]);
    }
  }

  /** Between two moments with the same sequence number every quota answer is the same. */
  lemma SameSeqNumSameQuota(s: State, steps: seq<Step>, family: string, vCpus: Option<int>)
    requires IsRun(s, steps) && Run(s, steps).ledger.seqNum == s.ledger.seqNum
    ensures HasQuotaFor(Run(s, steps), family, vCpus) <==> HasQuotaFor(s, family, vCpus)
  {
    SeqNumCountsUp(s, steps);
  }

  // ----- Creates taken back -----

  /** An instance with a pending create has no tombstone. */
  predicate CreatesUnburied(s: State) {
    forall k :: k in s.ledger.adjustments && s.ledger.adjustments[k].vCpus > 0 ==> k !in s.graves.lastSeen
  }

  lemma PruneOnlyDrops(g: Graves, now: int)
    ensures forall k :: k in Prune(g, now).lastSeen ==> k in g.lastSeen && Prune(g, now).lastSeen[k] == g.lastSeen[k]
  {
  }

  lemma PruneKeepsRecent(g: Graves, key: string, now: int)
    ensures Suppressed(Prune(g, now), key, now) <==> key in g.lastSeen && now - g.lastSeen[key] <= 1500
  {
  }

  /** Entering a delete leaves other pending creates as they are and none for the instance itself. */
  lemma EnterDeleteCreates(l: Ledger, key: string, quotaName: string, vCpus: int, refreshing: bool)
    requires vCpus > 0
    ensures var m := EnterDelete(l, key, quotaName, vCpus, refreshing);
      forall k :: k in m.adjustments && m.adjustments[k].vCpus > 0 ==>
        k != key && k in l.adjustments && l.adjustments[k] == m.adjustments[k]
  {
  }

  lemma BuryAddsOne(g: Graves, key: string, now: int, victim: string)
    ensures forall k :: k in Bury(g.(lastSeen := g.lastSeen - {key}), key, now, victim).lastSeen ==> k == key || k in g.lastSeen
  {
  }

  lemma DeleteUnburied(s: State, key: string, family: string, vCpus: int, now: int, victim: string)
    requires CreatesUnburied(s)
    ensures CreatesUnburied(RecordDelete(s, key, family, vCpus, now, victim))
  {
    var g := Prune(s.graves, now);
    PruneOnlyDrops(s.graves, now);
    if AcceptsDelete(s, family, vCpus) && !Suppressed(g, key, now) {
      EnterDeleteCreates(s.ledger, key, QuotaName(s, family), vCpus, s.refreshing);
      BuryAddsOne(g, key, now, victim);
    }
  }

  lemma {:induction false} RunUnburied(steps: seq<Step>)
    requires IsRun(Init(), steps)
    ensures CreatesUnburied(Run(Init(), steps))
  {
    if steps != [] {
      var front, last := steps[..|steps| - 1], steps[|steps| - 1];
      RunUnburied(front);
      if last.Delete? {
        DeleteUnburied(Run(Init(), front), last.key, last.family, last.vCpus, last.now, last.victim);
      } else if last.Begin? {
        PruneOnlyDrops(Run(Init(), front).graves, last.now);
      }
    }
  }

  /**
   However long ago a create was recorded, as long as it is pending an accepted delete of the
   instance takes back exactly that adjustment, under the quota name it was recorded for, and
   touches no other. Only during a refresh does the delete stay behind in its place.
   */
  lemma DeleteUndoesCreate(steps: seq<Step>, key: string, family: string, vCpus: int, now: int, victim: string, q: string)
    requires IsRun(Init(), steps)
    requires var s := Run(Init(), steps);
      && key in s.ledger.adjustments && s.ledger.adjustments[key].vCpus > 0 && AcceptsDelete(s, family, vCpus)
    ensures var s := Run(Init(), steps);
      var t := RecordDelete(s, key, family, vCpus, now, victim);
      var left := Get(s.ledger.byQuota, q) - Share(s.ledger.adjustments, key, q);
      && t.ledger.adjustments - {key} == s.ledger.adjustments - {key}
      && (if s.refreshing then
            && t.ledger.adjustments.Keys == s.ledger.adjustments.Keys && t.ledger.adjustments[key].vCpus == -vCpus
            && Get(t.ledger.byQuota, q) == left - (if q == QuotaName(s, family) then vCpus else 0)
          else key !in t.ledger.adjustments && Get(t.ledger.byQuota, q) == left)
  {
    RunUnburied(steps);
    var s := Run(Init(), steps);
    PruneOnlyDrops(s.graves, now);
    assert !Suppressed(Prune(s.graves, now), key, now);
    TakeBackThenRecord(s.ledger, key, QuotaName(s, family), vCpus, s.refreshing, q);
  }

  lemma TakeBackThenRecord(l: Ledger, key: string, quotaName: string, vCpus: int, refreshing: bool, q: string)
    requires key in l.adjustments && l.adjustments[key].vCpus > 0
    ensures var m := EnterDelete(l, key, quotaName, vCpus, refreshing);
      var left := Get(l.byQuota, q) - Share(l.adjustments, key, q);
      && m.adjustments - {key} == l.adjustments - {key}
      && (if refreshing then
            && m.adjustments.Keys == l.adjustments.Keys && m.adjustments[key].vCpus == -vCpus
            && Get(m.byQuota, q) == left - (if q == quotaName then vCpus else 0)
          else key !in m.adjustments && Get(m.byQuota, q) == left)
  {
  }

  // ----- Deletions counted once -----

  /** The step happens at a time of the clock. */
  function TimeOf(step: Step): Option<int> {
    match step
    case Delete(_, _, _, now, _) => Some(now)
    case Begin(now) => Some(now)
    case _ => None
  }

  /** An accepted deletion of the instance. */
  predicate Sights(s: State, step: Step, key: string) {
    step.Delete? && step.key == key && AcceptsDelete(s, step.family, step.vCpus)
  }

  /** The step forgets that the instance was deleted: it is created again, its tombstone is evicted, or all is reset. */
  predicate Forgets(s: State, step: Step, key: string) {
    match step
    case Create(expected, k, family, vCpus) => k == key && AcceptsCreate(s, expected, k, family, vCpus)
    case Delete(k, family, vCpus, now, victim) => k != key && victim == key && Evicts(s, k, family, vCpus, now)
    case Clear => !AlreadyReset(s)
    case _ => false
  }

  /** When the instance was last seen deleted, if first at `first`. */
  ghost function LastSighting(s: State, steps: seq<Step>, key: string, first: int): int
    requires IsRun(s, steps)
  {
    if steps == [] then first
    else
      var front, last := steps[..|steps| - 1], steps[|steps| - 1];
      if Sights(Run(s, front), last, key) then last.now else LastSighting(s, front, key, first)
  }

  /** Nothing forgets the instance, and every step comes within the TTL of its last sighting before. */
  ghost predicate Remembered(s: State, steps: seq<Step>, key: string, first: int)
    requires IsRun(s, steps)
  {
    steps == [] ||
    (var front, last := steps[..|steps| - 1], steps[|steps| - 1];
     && Remembered(s, front, key, first)
     && !Forgets(Run(s, front), last, key)
     && (TimeOf(last).Some? ==> TimeOf(last).value <= LastSighting(s, front, key, first) + TOMBSTONE_TTL))
  }

  predicate BuriedAt(g: Graves, key: string, time: int) {
    key in g.lastSeen && g.lastSeen[key] == time
  }

  lemma StepRemembers(s: State, step: Step, key: string, time: int)
    requires Enabled(s, step) && BuriedAt(s.graves, key, time)
    requires !Forgets(s, step, key) && (TimeOf(step).Some? ==> TimeOf(step).value <= time + TOMBSTONE_TTL)
    ensures BuriedAt(Apply(s, step).graves, key, if Sights(s, step, key) then step.now else time)
    ensures step.Delete? && step.key == key ==> Apply(s, step).ledger == s.ledger
  {
    if step.Delete? {
      assert BuriedAt(Prune(s.graves, step.now), key, time);
    }
  }

  lemma {:induction false} RunRemembers(s: State, steps: seq<Step>, key: string, first: int)
    requires IsRun(s, steps) && BuriedAt(s.graves, key, first) && Remembered(s, steps, key, first)
    ensures BuriedAt(Run(s, steps).graves, key, LastSighting(s, steps, key, first))
  {
    if steps != [] {
      var front, last := steps[..|steps| - 1], steps[|steps| - 1];
      RunRemembers(s, front, key, first);
      StepRemembers(Run(s, front), last, key, LastSighting(s, front, key, first));
    }
  }

  lemma AcceptedDeleteBuries(s: State, key: string, family: string, vCpus: int, now: int, victim: string)
    requires AcceptsDelete(s, family, vCpus)
    ensures BuriedAt(RecordDelete(s, key, family, vCpus, now, victim).graves, key, now)
  {
  }

  /**
   After an accepted deletion, through any run of other creates and deletes, refreshes that
   fail or publish, and repeats that extend the window, another report of the same deletion
   changes nothing in the ledger, as long as reports keep coming within the tombstone's TTL
   and nothing makes the provider forget the instance.
   */
  lemma DeleteTwiceCountsOnce(s: State, key: string, family: string, vCpus: int, now: int, victim: string,
                              steps: seq<Step>, again: Step)
    requires AcceptsDelete(s, family, vCpus)
    requires var t := RecordDelete(s, key, family, vCpus, now, victim);
      && IsRun(t, steps) && Remembered(t, steps, key, now)
      && Enabled(Run(t, steps), again) && again.Delete? && again.key == key
      && again.now <= LastSighting(t, steps, key, now) + TOMBSTONE_TTL
    ensures var u := Run(RecordDelete(s, key, family, vCpus, now, victim), steps);
      Apply(u, again).ledger == u.ledger
  {
    var t := RecordDelete(s, key, family, vCpus, now, victim);
    AcceptedDeleteBuries(s, key, family, vCpus, now, victim);
    RunRemembers(t, steps, key, now);
    StepRemembers(Run(t, steps), again, key, LastSighting(t, steps, key, now));
  }
}
