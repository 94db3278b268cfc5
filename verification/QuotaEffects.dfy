/**
 What one create or delete does to the quota answers after any run, on the fields of the state:
 which reports are accepted, the one adjustment they add, and the vCPUs that fit afterwards.
 */
module QuotaEffects {
  import opened TtlCache
  import opened QuotaModel

  /** The only change is one new adjustment under `key`, of `vCpus` for `quotaName`. */
  ghost predicate AddsOne(before: map<string, Adjustment>, after: map<string, Adjustment>, key: string, quotaName: string, vCpus: int) {
    && key !in before && after.Keys == before.Keys + {key}
    && after[key].quotaName == quotaName && after[key].vCpus == vCpus
    && (forall k :: k in before ==> after[k] == before[k])
    && (forall q :: Total(after, q) == Total(before, q) + if q == quotaName then vCpus else 0)
  }

  lemma OneMore(before: map<string, Adjustment>, key: string, x: Adjustment)
    requires key !in before
    ensures AddsOne(before, before[key := x], key, x.quotaName, x.vCpus)
  {
    forall q ensures Total(before[key := x], q) == Total(before, q) + if q == x.quotaName then x.vCpus else 0 {
      TotalAdd(before, key, x, q);
    }
  }

  function AtLeastZero(x: int): int {
    if x < 0 then 0 else x
  }

  /**
   `t` is `s` with `vCpus` more pending for `quotaName`: that quota's answers count them beside
   the reported usage and what was pending before, and every other quota's answers stay.
   */
  ghost predicate AnswersCount(s: State, t: State, quotaName: string, limit: int, current: int, vCpus: int, asked: string, v: int) {
    if asked != "" && (if asked in s.familyToQuota then s.familyToQuota[asked] else asked) == quotaName then
      HasQuotaFor(t, asked, Some(v)) <==> AtLeastZero(current + Total(s.ledger.adjustments, quotaName) + vCpus) + v <= limit
    else HasQuotaFor(t, asked, Some(v)) <==> HasQuotaFor(s, asked, Some(v))
  }

  lemma OneMoreAnswers(s: State, t: State, key: string, x: Adjustment, limit: int, current: int, asked: string, v: int)
    requires Balanced(s.ledger) && Balanced(t.ledger) && key !in s.ledger.adjustments
    requires s.usages == t.usages && s.familyToQuota == t.familyToQuota
    requires x.quotaName in s.usages && s.usages[x.quotaName] == Some(Usage(Some(limit), Some(current)))
    requires t.ledger.adjustments == s.ledger.adjustments[key := x]
    ensures AddsOne(s.ledger.adjustments, t.ledger.adjustments, key, x.quotaName, x.vCpus)
    ensures AnswersCount(s, t, x.quotaName, limit, current, x.vCpus, asked, v)
  {
    OneMore(s.ledger.adjustments, key, x);
    var q := QuotaName(s, asked);
    assert Get(t.ledger.byQuota, q) == Total(t.ledger.adjustments, q);
    assert Get(s.ledger.byQuota, q) == Total(s.ledger.adjustments, q);
  }

  /**
   A create reported against the current snapshot, for a family with a usable usage entry and
   an instance with nothing pending, uses up its vCPUs: one adjustment is added, and from then
   on `v` more vCPUs fit exactly if the usage, the pending adjustments, the create and `v` stay
   within the limit, usage counted as at least zero. Other quotas answer as before.
   */
  lemma CreateUsesQuota(steps: seq<Step>, expected: nat, key: string, family: string, vCpus: int, q: string, limit: int, current: int,
                        asked: string, v: int)
    requires IsRun(Init(), steps)
    requires var s := Run(Init(), steps);
      && s.initialized && !s.refreshing && expected == s.generation && vCpus > 0
      && q == (if family in s.familyToQuota then s.familyToQuota[family] else family)
      && q in s.usages && s.usages[q] == Some(Usage(Some(limit), Some(current)))
      && key !in s.ledger.adjustments
    ensures var s := Run(Init(), steps);
      var t := Apply(s, Create(expected, key, family, vCpus));
      && AddsOne(s.ledger.adjustments, t.ledger.adjustments, key, q, vCpus)
      && AnswersCount(s, t, q, limit, current, vCpus, asked, v)
  {
    var s := Run(Init(), steps);
    var step := Create(expected, key, family, vCpus);
    RunKeepsInvariants(steps);
    StepBalanced(s, step);
    OneMoreAnswers(s, Apply(s, step), key, Adjustment(q, vCpus, s.ledger.seqNum + 1), limit, current, asked, v);
  }

  /** Every other create is turned away without a trace. */
  lemma OtherCreatesAreIgnored(s: State, expected: nat, key: string, family: string, vCpus: int)
    requires var q := if family in s.familyToQuota then s.familyToQuota[family] else family;
      || !s.initialized || s.refreshing || expected != s.generation || vCpus <= 0
      || q !in s.usages || s.usages[q].None? || s.usages[q].value.limit.None? || s.usages[q].value.current.None?
      || key in s.ledger.adjustments
    ensures Apply(s, Create(expected, key, family, vCpus)) == s
  {
  }

  /** A delete of an instance with nothing pending and no recent tombstone records its vCPUs. */
  lemma DeleteRecords(s: State, key: string, family: string, vCpus: int, now: int, victim: string)
    requires AcceptsDelete(s, family, vCpus) && key !in s.ledger.adjustments
    requires !Suppressed(Prune(s.graves, now), key, now)
    ensures var t, q := RecordDelete(s, key, family, vCpus, now, victim), QuotaName(s, family);
      && t.usages == s.usages && t.familyToQuota == s.familyToQuota
      && t.ledger.adjustments == s.ledger.adjustments[key := Adjustment(q, -vCpus, s.ledger.seqNum + 1)]
  {
  }

  /**
   The mirror image: a delete of an instance with nothing pending and not seen deleted in the
   last 1500 seconds frees its vCPUs, refresh under way or not.
   */
  lemma DeleteFreesQuota(steps: seq<Step>, key: string, family: string, vCpus: int, now: int, victim: string, q: string,
                         limit: int, current: int, asked: string, v: int)
    requires IsRun(Init(), steps)
    requires var s := Run(Init(), steps);
      && Enabled(s, Delete(key, family, vCpus, now, victim))
      && s.initialized && vCpus > 0
      && q == (if family in s.familyToQuota then s.familyToQuota[family] else family)
      && q in s.usages && s.usages[q] == Some(Usage(Some(limit), Some(current)))
      && key !in s.ledger.adjustments
      && !(key in s.graves.lastSeen && now - s.graves.lastSeen[key] <= 1500)
    ensures var s := Run(Init(), steps);
      var t := Apply(s, Delete(key, family, vCpus, now, victim));
      && AddsOne(s.ledger.adjustments, t.ledger.adjustments, key, q, -vCpus)
      && AnswersCount(s, t, q, limit, current, -vCpus, asked, v)
  {
    var s := Run(Init(), steps);
    RunKeepsInvariants(steps);
    StepBalanced(s, Delete(key, family, vCpus, now, victim));
    PruneKeepsRecent(s.graves, key, now);
    DeleteRecords(s, key, family, vCpus, now, victim);
    OneMoreAnswers(s, RecordDelete(s, key, family, vCpus, now, victim), key, Adjustment(q, -vCpus, s.ledger.seqNum + 1), limit, current, asked, v);
  }

  /** Deletes that are not accepted, repeat a recent one or meet a pending delete leave the ledger alone. */
  lemma OtherDeletesAreIgnored(s: State, key: string, family: string, vCpus: int, now: int, victim: string)
    requires Enabled(s, Delete(key, family, vCpus, now, victim))
    requires var q := if family in s.familyToQuota then s.familyToQuota[family] else family;
      || !s.initialized || vCpus <= 0
      || q !in s.usages || s.usages[q].None? || s.usages[q].value.limit.None? || s.usages[q].value.current.None?
      || (key in s.ledger.adjustments && s.ledger.adjustments[key].vCpus < 0)
      || (key in s.graves.lastSeen && now - s.graves.lastSeen[key] <= 1500)
    ensures var t := Apply(s, Delete(key, family, vCpus, now, victim));
      t.ledger == s.ledger && t.usages == s.usages && t.familyToQuota == s.familyToQuota
  {
    PruneKeepsRecent(s.graves, key, now);
  }

  // ----- Across a refresh -----

  /** The watermark is `mark`, and whatever is at or below it is as it was in `before`. */
  predicate SinceMark(before: map<string, Adjustment>, mark: nat, s: State) {
    && s.flight == Some(mark) && mark <= s.ledger.seqNum
    && forall k :: k in s.ledger.adjustments && s.ledger.adjustments[k].seqNum <= mark ==>
         k in before && before[k] == s.ledger.adjustments[k]
  }

  lemma EnterDeleteSince(before: map<string, Adjustment>, mark: nat, s: State, l: Ledger,
                         key: string, quotaName: string, vCpus: int)
    requires SinceMark(before, mark, s) && l == EnterDelete(s.ledger, key, quotaName, vCpus, s.refreshing)
    ensures SinceMark(before, mark, s.(ledger := l))
  {
  }

  lemma StepSince(before: map<string, Adjustment>, mark: nat, s: State, step: Step)
    requires Enabled(s, step) && SinceMark(before, mark, s) && !step.Fail? && !step.Arrive?
    ensures SinceMark(before, mark, Apply(s, step))
  {
    if step.Delete? {
      var q := QuotaName(s, step.family);
      EnterDeleteSince(before, mark, s, EnterDelete(s.ledger, step.key, q, step.vCpus, s.refreshing), step.key, q, step.vCpus);
      var t := Apply(s, step);
      assert t.flight == s.flight;
      assert t.ledger == s.ledger || t.ledger == EnterDelete(s.ledger, step.key, q, step.vCpus, s.refreshing);
    }
  }

  lemma {:induction false} RunSince(before: map<string, Adjustment>, mark: nat, s: State, steps: seq<Step>)
    requires IsRun(s, steps) && SinceMark(before, mark, s)
    requires forall i :: 0 <= i < |steps| ==> !steps[i].Fail? && !steps[i].Arrive?
    ensures SinceMark(before, mark, Run(s, steps))
  {
    if steps != [] {
      RunSince(before, mark, s, steps[..|steps| - 1]);
      StepSince(before, mark, Run(s, steps[..|steps| - 1]), steps[|steps| - 1]);
    }
  }

  /**
   Whatever creates, deletes and resets happen while a refresh runs, its publication drops
   exactly the adjustments that were pending when it began and have not changed since. What was
   recorded in between stays as it is, and the usage data becomes the published one.
   */
  lemma RefreshDropsWhatItBeganWith(steps: seq<Step>, now: int, during: seq<Step>,
                                    usages: map<string, Option<Usage>>, families: map<string, string>, k: string)
    requires IsRun(Init(), steps) && Run(Init(), steps).flight.None?
    requires IsRun(Apply(Run(Init(), steps), Begin(now)), during)
    requires forall i :: 0 <= i < |during| ==> !during[i].Fail? && !during[i].Arrive?
    ensures var s := Run(Init(), steps);
      var m := Run(Apply(s, Begin(now)), during);
      && Enabled(m, Arrive(usages, families))
      && var t := Apply(m, Arrive(usages, families));
      && t.usages == usages && t.familyToQuota == families && t.initialized && !t.refreshing && t.generation == m.generation + 1
      && (k in t.ledger.adjustments <==>
            k in m.ledger.adjustments && !(k in s.ledger.adjustments && s.ledger.adjustments[k] == m.ledger.adjustments[k]))
      && (k in t.ledger.adjustments ==> t.ledger.adjustments[k] == m.ledger.adjustments[k])
  {
    RunKeepsInvariants(steps);
    var s := Run(Init(), steps);
    var begun := Apply(s, Begin(now));
    assert SinceMark(s.ledger.adjustments, s.ledger.seqNum, begun);
    RunSince(s.ledger.adjustments, s.ledger.seqNum, begun, during);
  }

  /** A refresh that fails ends the refresh and changes nothing else. */
  lemma FailedRefreshLeavesNoTrace(s: State, now: int)
    requires s.flight.None? && !s.refreshing
    ensures var t := Apply(Apply(s, Begin(now)), Fail);
      t.graves.lastSeen.Keys <= s.graves.lastSeen.Keys && t.(graves := s.graves) == s
  {
    PruneOnlyDrops(s.graves, now);
  }

  /** A reset forgets adjustments and tombstones, and every read fails open from then on. */
  lemma ResetFailsOpen(s: State, family: string, vCpus: Option<int>)
    ensures var t := Apply(s, Clear);
      && t.ledger.adjustments == map[] && t.graves.lastSeen == map[] && t.usages == map[] && !t.initialized
      && HasQuotaFor(t, family, vCpus)
  {
  }

  // ----- Generations -----

  /** The step puts another snapshot, or none, in place of the current one. */
  predicate ReplacesSnapshot(s: State, step: Step) {
    || step.Arrive?
    || (step.Clear? && (s.initialized || s.usages != map[] || s.familyToQuota != map[] || s.ledger.adjustments != map[] || s.graves.lastSeen != map[]))
  }

  lemma StepGeneration(s: State, step: Step)
    requires Enabled(s, step)
    ensures Apply(s, step).generation >= s.generation + if ReplacesSnapshot(s, step) then 1 else 0
  {
  }

  lemma {:induction false} GenerationGrows(s: State, steps: seq<Step>, i: nat)
    requires IsRun(s, steps) && i < |steps| && IsRun(s, steps[..i])
    ensures Run(s, steps).generation >= Run(s, steps[..i]).generation
    ensures ReplacesSnapshot(Run(s, steps[..i]), steps[i]) ==> Run(s, steps).generation > Run(s, steps[..i]).generation
  {
    var front, last := steps[..|steps| - 1], steps[|steps| - 1];
    StepGeneration(Run(s, front), last);
    if i < |front| {
      assert front[..i] == steps[..i];
      GenerationGrows(s, front, i);
    }
  }

  /** A create issued against a snapshot that has since been replaced or reset is never recorded. */
  lemma StaleCreatesAreIgnored(s: State, steps: seq<Step>, i: nat, key: string, family: string, vCpus: int)
    requires IsRun(s, steps) && i < |steps| && IsRun(s, steps[..i]) && ReplacesSnapshot(Run(s, steps[..i]), steps[i])
    ensures var t := Run(s, steps);
      Apply(t, Create(Run(s, steps[..i]).generation, key, family, vCpus)) == t
  {
    GenerationGrows(s, steps, i);
  }

  // ----- Tombstones -----

  /** Pruning drops what was last seen more than 1500 s ago, unless it ran less than 600 s ago. */
  lemma PruneExactly(g: Graves, now: int, k: string)
    ensures k in Prune(g, now).lastSeen <==>
      k in g.lastSeen && ((g.lastCleanup.Some? && now - g.lastCleanup.value < 600) || now - g.lastSeen[k] <= 1500)
    ensures k in Prune(g, now).lastSeen ==> Prune(g, now).lastSeen[k] == g.lastSeen[k]
  {
  }

  lemma PruneOnlyShrinks(g: Graves, now: int)
    ensures |Prune(g, now).lastSeen| <= |g.lastSeen|
  {
    PruneOnlyDrops(g, now);
    SubmapSize(Prune(g, now).lastSeen, g.lastSeen);
  }

  lemma SubmapSize(a: map<string, int>, b: map<string, int>)
    requires a.Keys <= b.Keys
    ensures |a| <= |b|
  {
    SubsetSize(a.Keys, b.Keys);
    assert |a| == |a.Keys| && |b| == |b.Keys|;
  }

  lemma {:induction false} SubsetSize(a: set<string>, b: set<string>)
    requires a <= b
    ensures |a| <= |b|
    decreases a
  {
    if a != {} {
      var x :| x in a;
      SubsetSize(a - {x}, b - {x});
    }
  }

  lemma InsertSize(m: map<string, int>, key: string, time: int)
    ensures |m[key := time]| <= |m| + 1
  {
    assert m[key := time].Keys == m.Keys + {key};
    assert |m.Keys + {key}| <= |m.Keys| + 1;
    assert |m| == |m.Keys| && |m[key := time]| == |m[key := time].Keys|;
  }

  lemma RemoveSize(m: map<string, int>, key: string)
    ensures |m - {key}| <= |m| && (key in m ==> |m - {key}| == |m| - 1)
  {
    assert (m - {key}).Keys == m.Keys - {key};
    assert |m| == |m.Keys| && |m - {key}| == |(m - {key}).Keys|;
  }

  lemma BuryBounded(g: Graves, key: string, now: int, victim: string)
    requires |g.lastSeen| <= 50000 && key !in g.lastSeen && (|g.lastSeen| >= 50000 ==> victim in g.lastSeen)
    ensures |Bury(g, key, now, victim).lastSeen| <= 50000
  {
    RemoveSize(g.lastSeen, victim);
    InsertSize(if |g.lastSeen| >= MAX_TOMBSTONES then g.lastSeen - {victim} else g.lastSeen, key, now);
  }

  lemma RenewSize(m: map<string, int>, key: string, time: int)
    requires key in m
    ensures |m[key := time]| == |m|
  {
    assert m[key := time].Keys == m.Keys;
    assert |m| == |m.Keys| && |m[key := time]| == |m[key := time].Keys|;
  }

  lemma DeleteBounded(s: State, key: string, family: string, vCpus: int, now: int, victim: string)
    requires |s.graves.lastSeen| <= 50000 && VictimIsOldest(s, key, family, vCpus, now, victim)
    ensures |RecordDelete(s, key, family, vCpus, now, victim).graves.lastSeen| <= 50000
  {
    var g := Prune(s.graves, now);
    PruneOnlyShrinks(s.graves, now);
    if AcceptsDelete(s, family, vCpus) {
      if Suppressed(g, key, now) {
        RenewSize(g.lastSeen, key, now);
      } else {
        RemoveSize(g.lastSeen, key);
        BuryBounded(g.(lastSeen := g.lastSeen - {key}), key, now, victim);
      }
    }
  }

  /** However many deletions are reported, at most 50000 are remembered. */
  lemma {:induction false} TombstonesBounded(steps: seq<Step>)
    requires IsRun(Init(), steps)
    ensures |Run(Init(), steps).graves.lastSeen| <= 50000
  {
    if steps != [] {
      var front, last := steps[..|steps| - 1], steps[|steps| - 1];
      TombstonesBounded(front);
      var s := Run(Init(), front);
      if last.Delete? {
        DeleteBounded(s, last.key, last.family, last.vCpus, last.now, last.victim);
      } else if last.Begin? {
        PruneOnlyShrinks(s.graves, last.now);
      } else if last.Create? {
        RemoveSize(s.graves.lastSeen, last.key);
      }
    }
  }

  /**
   An accepted delete is remembered as of now. While there is room it forgets no other deletion
   of the last 1500 s; when full, it forgets one that no remaining one is older than.
   */
  lemma DeleteRemembers(s: State, key: string, family: string, vCpus: int, now: int, victim: string, k: string)
    requires Enabled(s, Delete(key, family, vCpus, now, victim)) && s.initialized && vCpus > 0
    requires var q := if family in s.familyToQuota then s.familyToQuota[family] else family;
      q in s.usages && s.usages[q].Some? && s.usages[q].value.limit.Some? && s.usages[q].value.current.Some?
    ensures var lastSeen := Apply(s, Delete(key, family, vCpus, now, victim)).graves.lastSeen;
      && key in lastSeen && lastSeen[key] == now
      && (k != key && k in s.graves.lastSeen && now - s.graves.lastSeen[k] <= 1500 ==>
            || (k in lastSeen && lastSeen[k] == s.graves.lastSeen[k])
            || (|s.graves.lastSeen| >= 50000 && forall j :: j in lastSeen && j != key ==> s.graves.lastSeen[k] <= lastSeen[j]))
  {
    var g := Prune(s.graves, now);
    PruneExactly(s.graves, now, k);
    PruneOnlyShrinks(s.graves, now);
    RemoveSize(g.lastSeen, key);
    BuriedOrOldest(s, g, key, family, vCpus, now, victim, k);
  }

  lemma BuriedOrOldest(s: State, g: Graves, key: string, family: string, vCpus: int, now: int, victim: string, k: string)
    requires g == Prune(s.graves, now) && AcceptsDelete(s, family, vCpus) && VictimIsOldest(s, key, family, vCpus, now, victim)
    ensures var lastSeen := RecordDelete(s, key, family, vCpus, now, victim).graves.lastSeen;
      && key in lastSeen && lastSeen[key] == now
      && (k != key && k in g.lastSeen ==>
            || (k in lastSeen && lastSeen[k] == g.lastSeen[k])
            || (|g.lastSeen - {key}| >= 50000 && forall j :: j in lastSeen && j != key ==> g.lastSeen[k] <= lastSeen[j]))
  {
  }
}
