/**
 `GetRecommendations` under concurrent callers, as interleaved steps: input validation and the
 first look in the cache, joining or leading a single flight, the second look, the request,
 ranking and storing the outcome, and leaving the flight. `log` records when requests start
 and outcomes are stored.
 */
module RecommendationFetch {
  import opened TtlCache
  import opened PlacementRanking
  import opened Recommendations
  import opened RecommendationCacheKey

  type Caller = nat
  type Key = nat

  /** Ranking of a response for an input; the provider's is `RankedRecommendations`. */
  type Ranking = (string, seq<Option<Choice>>, RankingInput) -> Result<seq<Recommendation>>

  /** 45 s, in milliseconds. */
  const DEFAULT_TTL := 45000

  /** `at` is when the value was found live in the cache, or stored there. */
  datatype Outcome = Got(details: seq<Recommendation>, at: int) | Failed

  datatype Pc =
    | Missed(key: Key, input: RankingInput)                      // first look failed
    | Waiting(key: Key, input: RankingInput, leader: Caller)     // another caller leads the flight
    | Leading(key: Key, input: RankingInput)                     // inside the flight, before the second look
    | Fetching(key: Key, input: RankingInput)                    // request in flight
    | Leaving(key: Key, input: RankingInput, outcome: Outcome)   // function returned, flight not yet removed
    | Done(key: Key, input: RankingInput, flight: Option<Caller>, outcome: Outcome)   // who led its flight, if it needed one

  datatype CacheEntry = CacheEntry(details: seq<Recommendation>, expiry: int)

  /** A stored outcome remembers the response and whose request it answered. */
  datatype Event =
    | Started(key: Key, time: int)
    | Stored(key: Key, time: int, expiry: int, details: seq<Recommendation>,
             id: string, choices: seq<Option<Choice>>, validUntil: Option<int>, input: RankingInput)

  datatype State = State(
    now: int,
    cache: map<Key, CacheEntry>,
    flights: map<Key, Caller>,
    pc: map<Caller, Pc>,
    log: seq<Event>)

  datatype Reply = Error | Response(id: string, choices: seq<Option<Choice>>, validUntil: Option<int>)

  datatype Step =
    | Call(caller: Caller, key: Key, input: RankingInput)
    | Join(caller: Caller)
    | Recheck(caller: Caller)
    | Respond(caller: Caller, reply: Reply)
    | Leave(caller: Caller)
    | Tick(elapsed: nat)
    | Janitor

  /** `validateInput` */
  predicate ValidInput(input: RankingInput) {
    && input.vmSizes != [] && input.count > 0
    && (input.capacityType == ON_DEMAND || input.capacityType == Recommendations.SPOT)
    && (input.osType == "linux" || input.osType == "windows")
  }

  predicate Live(s: State, key: Key) {
    key in s.cache && s.now <= s.cache[key].expiry
  }

  /** The response's own validity, but never less than the default. */
  function TtlFor(validUntil: Option<int>, now: int): (ttl: int)
    ensures ttl >= DEFAULT_TTL && (validUntil.Some? ==> now + ttl >= validUntil.value)
    ensures ttl > DEFAULT_TTL ==> validUntil == Some(now + ttl)
  {
    var ttl := if validUntil.Some? then validUntil.value - now else DEFAULT_TTL;
    if ttl < DEFAULT_TTL then DEFAULT_TTL else ttl
  }

  predicate Enabled(s: State, step: Step) {
    match step
    case Call(c, _, _) => c !in s.pc
    case Join(c) => c in s.pc && s.pc[c].Missed?
    case Recheck(c) => c in s.pc && s.pc[c].Leading?
    case Respond(c, _) => c in s.pc && s.pc[c].Fetching?
    case Leave(c) => c in s.pc && s.pc[c].Leaving?
    case Tick(_) => true
    case Janitor => true
  }

  function At(s: State, c: Caller, pc: Pc): State {
    s.(pc := s.pc[c := pc])
  }

  function Find(s: State, key: Key): Outcome
    requires Live(s, key)
  {
    Got(s.cache[key].details, s.now)
  }

  /** A response is ranked for the leader's input; only a ranked one is stored. */
  function Receive(rank: Ranking, s: State, c: Caller, reply: Reply): State
    requires c in s.pc
  {
    var key, input := s.pc[c].key, s.pc[c].input;
    if reply.Error? || rank(reply.id, reply.choices, input).Err? then At(s, c, Leaving(key, input, Failed))
    else
      var details := rank(reply.id, reply.choices, input).value;
      var expiry := s.now + TtlFor(reply.validUntil, s.now);
      At(s, c, Leaving(key, input, Got(details, s.now))).(
        cache := s.cache[key := CacheEntry(details, expiry)],
        log := s.log + [Stored(key, s.now, expiry, details, reply.id, reply.choices, reply.validUntil, input)])
  }

  function Apply(rank: Ranking, s: State, step: Step): State
    requires Enabled(s, step)
  {
    match step
    case Call(c, key, input) =>
      At(s, c, if !ValidInput(input) then Done(key, input, None, Failed)
               else if Live(s, key) then Done(key, input, None, Find(s, key))
               else Missed(key, input))
    case Join(c) =>
      var key, input := s.pc[c].key, s.pc[c].input;
      if key in s.flights then At(s, c, Waiting(key, input, s.flights[key]))
      else At(s, c, Leading(key, input)).(flights := s.flights[key := c])
    case Recheck(c) =>
      var key, input := s.pc[c].key, s.pc[c].input;
      if Live(s, key) then At(s, c, Leaving(key, input, Find(s, key)))
      else At(s, c, Fetching(key, input)).(log := s.log + [Started(key, s.now)])
    case Respond(c, reply) => Receive(rank, s, c, reply)
    case Leave(c) =>
      var key, outcome := s.pc[c].key, s.pc[c].outcome;
      s.(flights := s.flights - {key},
         pc := map d | d in s.pc ::
           if d == c || (s.pc[d].Waiting? && s.pc[d].key == key) then Done(key, s.pc[d].input, Some(c), outcome) else s.pc[d])
    case Tick(elapsed) => s.(now := s.now + elapsed)
    case Janitor => s.(cache := map key | key in s.cache && Live(s, key) :: s.cache[key])
  }

  predicate IsRun(rank: Ranking, s: State, steps: seq<Step>)
    decreases |steps|, 0
  {
    steps == [] ||
    (IsRun(rank, s, steps[..|steps| - 1]) && Enabled(Run(rank, s, steps[..|steps| - 1]), steps[|steps| - 1]))
  }

  function Run(rank: Ranking, s: State, steps: seq<Step>): State
    requires IsRun(rank, s, steps)
    decreases |steps|, 1
  {
    if steps == [] then s else Apply(rank, Run(rank, s, steps[..|steps| - 1]), steps[|steps| - 1])
  }

  function Init(now: int): State {
    State(now, map[], map[], map[], [])
  }

  // ----- Invariants -----

  predicate InFlight(pc: Pc) {
    pc.Leading? || pc.Fetching? || pc.Leaving?
  }

  /** The flight table and the callers agree: one leader per key, waiters only behind a leader. */
  predicate FlightsAgree(s: State) {
    && (forall key :: key in s.flights ==>
          s.flights[key] in s.pc && InFlight(s.pc[s.flights[key]]) && s.pc[s.flights[key]].key == key)
    && (forall c :: c in s.pc && InFlight(s.pc[c]) ==> s.pc[c].key in s.flights && s.flights[s.pc[c].key] == c)
    && (forall c :: c in s.pc && s.pc[c].Waiting? ==> s.pc[c].key in s.flights && s.flights[s.pc[c].key] == s.pc[c].leader)
  }

  /** A stored outcome is in the cache until it expires. */
  predicate StoresKept(s: State) {
    forall i :: 0 <= i < |s.log| && s.log[i].Stored? ==>
      || s.log[i].expiry < s.now
      || (s.log[i].key in s.cache && s.cache[s.log[i].key] == CacheEntry(s.log[i].details, s.log[i].expiry))
  }

  /** While a request is in flight, everything stored for its key before has expired. */
  predicate FetchOnlyWhenStale(s: State) {
    forall c, i :: c in s.pc && s.pc[c].Fetching? && 0 <= i < |s.log| && s.log[i].Stored? && s.log[i].key == s.pc[c].key ==>
      s.log[i].expiry < s.now
  }

  /** Some stored outcome under the key has these details and was current at the given time. */
  ghost predicate WasStored(s: State, key: Key, details: seq<Recommendation>, at: int) {
    exists i :: 0 <= i < |s.log| && StoredAs(s.log[i], key, details, at)
  }

  predicate StoredAs(e: Event, key: Key, details: seq<Recommendation>, at: int) {
    e.Stored? && e.key == key && e.details == details && e.time <= at <= e.expiry
  }

  /** Cached and returned values were stored for that very key, and were current when looked up. */
  ghost predicate ValuesStored(s: State) {
    && (forall key, at :: key in s.cache && s.now <= at <= s.cache[key].expiry ==> WasStored(s, key, s.cache[key].details, at))
    && (forall c :: c in s.pc && (s.pc[c].Leaving? || s.pc[c].Done?) && s.pc[c].outcome.Got? ==>
          WasStored(s, s.pc[c].key, s.pc[c].outcome.details, s.pc[c].outcome.at))
  }

  /** The later of 45 s from now and the response's own validity. */
  predicate IsExpiry(expiry: int, time: int, validUntil: Option<int>) {
    && expiry >= time + 45000 && (validUntil.Some? ==> expiry >= validUntil.value)
    && (expiry == time + 45000 || validUntil == Some(expiry))
  }

  predicate WellTimed(s: State) {
    && (forall i :: 0 <= i < |s.log| ==> s.log[i].time <= s.now)
    && (forall i :: 0 <= i < |s.log| && s.log[i].Stored? ==> IsExpiry(s.log[i].expiry, s.log[i].time, s.log[i].validUntil))
    && (forall i, j :: 0 <= i < j < |s.log| && s.log[i].Stored? && s.log[j].Started? && s.log[i].key == s.log[j].key ==>
          s.log[j].time > s.log[i].expiry)
  }

  lemma LeaveFlights(rank: Ranking, s: State, c: Caller)
    requires Enabled(s, Leave(c)) && FlightsAgree(s)
    ensures FlightsAgree(Apply(rank, s, Leave(c)))
  {
    var t, key := Apply(rank, s, Leave(c)), s.pc[c].key;
    assert forall d :: d in t.pc && (InFlight(t.pc[d]) || t.pc[d].Waiting?) ==> d != c && t.pc[d] == s.pc[d] && t.pc[d].key != key;
  }

  lemma JoinFlights(rank: Ranking, s: State, c: Caller)
    requires Enabled(s, Join(c)) && FlightsAgree(s)
    ensures FlightsAgree(Apply(rank, s, Join(c)))
  {
    var t := Apply(rank, s, Join(c));
    assert t.pc == s.pc[c := t.pc[c]];
  }

  /** A caller outside the flights stays outside, or the leader of one moves on inside it. */
  lemma MoveFlights(s: State, t: State, c: Caller)
    requires FlightsAgree(s) && t.flights == s.flights && c in t.pc && t.pc == s.pc[c := t.pc[c]]
    requires if c in s.pc then InFlight(s.pc[c]) && InFlight(t.pc[c]) && t.pc[c].key == s.pc[c].key
             else !InFlight(t.pc[c]) && !t.pc[c].Waiting?
    ensures FlightsAgree(t)
  {
  }

  lemma StepFlights(rank: Ranking, s: State, step: Step)
    requires Enabled(s, step) && FlightsAgree(s)
    ensures FlightsAgree(Apply(rank, s, step))
  {
    if step.Leave? {
      LeaveFlights(rank, s, step.caller);
    } else if step.Join? {
      JoinFlights(rank, s, step.caller);
    } else if !step.Tick? && !step.Janitor? {
      MoveFlights(s, Apply(rank, s, step), step.caller);
    }
  }

  lemma ReceiveStores(rank: Ranking, s: State, c: Caller, reply: Reply)
    requires Enabled(s, Respond(c, reply)) && FlightsAgree(s) && StoresKept(s) && FetchOnlyWhenStale(s)
    ensures StoresKept(Receive(rank, s, c, reply)) && FetchOnlyWhenStale(Receive(rank, s, c, reply))
  {
    var t := Receive(rank, s, c, reply);
    forall i | 0 <= i < |t.log| && t.log[i].Stored?
      ensures || t.log[i].expiry < t.now
              || (t.log[i].key in t.cache && t.cache[t.log[i].key] == CacheEntry(t.log[i].details, t.log[i].expiry))
    {
      if i < |s.log| {
        assert t.log[i] == s.log[i];
      }
    }
  }

  lemma StepStores(rank: Ranking, s: State, step: Step)
    requires Enabled(s, step) && FlightsAgree(s) && StoresKept(s) && FetchOnlyWhenStale(s)
    ensures StoresKept(Apply(rank, s, step)) && FetchOnlyWhenStale(Apply(rank, s, step))
  {
    if step.Respond? {
      ReceiveStores(rank, s, step.caller, step.reply);
    }
  }

  lemma StepTimes(rank: Ranking, s: State, step: Step)
    requires Enabled(s, step) && StoresKept(s) && WellTimed(s)
    ensures WellTimed(Apply(rank, s, step))
  {
  }

  lemma LogGrows(rank: Ranking, s: State, step: Step)
    requires Enabled(s, step)
    ensures s.log <= Apply(rank, s, step).log
  {
  }

  lemma StoredStays(s: State, t: State, key: Key, details: seq<Recommendation>, at: int)
    requires s.log <= t.log && WasStored(s, key, details, at)
    ensures WasStored(t, key, details, at)
  {
    var i :| 0 <= i < |s.log| && StoredAs(s.log[i], key, details, at);
    assert t.log[i] == s.log[i];
  }

  lemma StepValues(rank: Ranking, s: State, step: Step)
    requires Enabled(s, step) && FlightsAgree(s) && ValuesStored(s)
    ensures ValuesStored(Apply(rank, s, step))
  {
    var t := Apply(rank, s, step);
    LogGrows(rank, s, step);
    forall key, details, at | WasStored(s, key, details, at) ensures WasStored(t, key, details, at) {
      StoredStays(s, t, key, details, at);
    }
    if step.Respond? && |t.log| > |s.log| {
      var e := t.log[|s.log|];
      forall at | e.time <= at <= e.expiry ensures WasStored(t, e.key, e.details, at) {
        assert StoredAs(t.log[|s.log|], e.key, e.details, at);
      }
    }
  }

  /** Every stored outcome is the ranking of its response for the input it was fetched for. */
  predicate StoresRanked(rank: Ranking, s: State) {
    forall i :: 0 <= i < |s.log| && s.log[i].Stored? ==>
      rank(s.log[i].id, s.log[i].choices, s.log[i].input) == Ok(s.log[i].details)
  }

  lemma StepRanked(rank: Ranking, s: State, step: Step)
    requires Enabled(s, step) && StoresRanked(rank, s)
    ensures StoresRanked(rank, Apply(rank, s, step))
  {
    LogGrows(rank, s, step);
  }

  lemma {:induction false} RunKeepsInvariants(rank: Ranking, now: int, steps: seq<Step>)
    requires IsRun(rank, Init(now), steps)
    ensures var s := Run(rank, Init(now), steps);
      FlightsAgree(s) && StoresKept(s) && FetchOnlyWhenStale(s) && WellTimed(s) && ValuesStored(s) && StoresRanked(rank, s)
  {
    if steps != [] {
      var front, last := steps[..|steps| - 1], steps[|steps| - 1];
      RunKeepsInvariants(rank, now, front);
      var s := Run(rank, Init(now), front);
      StepFlights(rank, s, last);
      StepStores(rank, s, last);
      StepTimes(rank, s, last);
      StepValues(rank, s, last);
      StepRanked(rank, s, last);
    }
  }

  // ----- Keys -----

  /** Every call computes its key from its input. */
  ghost predicate Keyed(hash: Fingerprint -> nat, steps: seq<Step>) {
    forall i :: 0 <= i < |steps| && steps[i].Call? ==> steps[i].key == CacheKey(hash, steps[i].input)
  }

  /** The input was passed to some call of the run. */
  ghost predicate Asked(steps: seq<Step>, input: RankingInput) {
    exists i :: 0 <= i < |steps| && steps[i].Call? && steps[i].input == input
  }

  /** No two inputs of the run collide in the hash. */
  ghost predicate NoCollisions(hash: Fingerprint -> nat, steps: seq<Step>) {
    forall a, b :: Asked(steps, a) && Asked(steps, b) && hash(FingerprintOf(a)) == hash(FingerprintOf(b)) ==>
      FingerprintOf(a) == FingerprintOf(b)
  }

  /** Callers and stored outcomes carry an input of the run and its key. */
  ghost predicate KeysFit(hash: Fingerprint -> nat, steps: seq<Step>, s: State) {
    && (forall c :: c in s.pc ==> Asked(steps, s.pc[c].input) && s.pc[c].key == CacheKey(hash, s.pc[c].input))
    && (forall i :: 0 <= i < |s.log| && s.log[i].Stored? ==>
          Asked(steps, s.log[i].input) && s.log[i].key == CacheKey(hash, s.log[i].input))
  }

  lemma AskedStays(front: seq<Step>, last: Step, input: RankingInput)
    requires Asked(front, input) || (last.Call? && last.input == input)
    ensures Asked(front + [last], input)
  {
    var steps := front + [last];
    if last.Call? && last.input == input {
      assert steps[|front|] == last;
    } else {
      var i :| 0 <= i < |front| && front[i].Call? && front[i].input == input;
      assert steps[i] == front[i];
    }
  }

  /** A step moves callers without changing their key and input, and stores for the mover's. */
  lemma StepKeepsKeys(rank: Ranking, s: State, step: Step)
    requires Enabled(s, step)
    ensures var t := Apply(rank, s, step);
      && (forall c :: c in t.pc ==>
            if c in s.pc then t.pc[c].key == s.pc[c].key && t.pc[c].input == s.pc[c].input
            else step.Call? && t.pc[c].key == step.key && t.pc[c].input == step.input)
      && (forall i :: |s.log| <= i < |t.log| && t.log[i].Stored? ==>
            exists c :: c in s.pc && t.log[i].key == s.pc[c].key && t.log[i].input == s.pc[c].input)
  {
    if step.Respond? {
      assert step.caller in s.pc;
    }
  }

  lemma StepKeysFit(hash: Fingerprint -> nat, rank: Ranking, front: seq<Step>, last: Step, s: State)
    requires Enabled(s, last) && KeysFit(hash, front, s) && Keyed(hash, [last])
    ensures KeysFit(hash, front + [last], Apply(rank, s, last))
  {
    forall input | Asked(front, input) || (last.Call? && last.input == input) ensures Asked(front + [last], input) {
      AskedStays(front, last, input);
    }
    assert [last][0] == last;
    LogGrows(rank, s, last);
    StepKeepsKeys(rank, s, last);
    var t := Apply(rank, s, last);
    forall i | 0 <= i < |t.log| && t.log[i].Stored?
      ensures Asked(front + [last], t.log[i].input) && t.log[i].key == CacheKey(hash, t.log[i].input)
    {
      if i < |s.log| {
        assert t.log[i] == s.log[i];
      }
    }
  }

  lemma {:induction false} RunKeysFit(hash: Fingerprint -> nat, rank: Ranking, now: int, steps: seq<Step>)
    requires IsRun(rank, Init(now), steps) && Keyed(hash, steps)
    ensures KeysFit(hash, steps, Run(rank, Init(now), steps))
  {
    if steps != [] {
      var front, last := steps[..|steps| - 1], steps[|steps| - 1];
      RunKeysFit(hash, rank, now, front);
      StepKeysFit(hash, rank, front, last, Run(rank, Init(now), front));
      assert front + [last] == steps;
    }
  }

  // ----- What callers can rely on -----

  /** In every interleaving at most one request per key is in flight. */
  lemma AtMostOneFetchPerKey(rank: Ranking, now: int, steps: seq<Step>, c: Caller, d: Caller)
    requires IsRun(rank, Init(now), steps)
    requires var s := Run(rank, Init(now), steps);
      c in s.pc && d in s.pc && s.pc[c].Fetching? && s.pc[d].Fetching? && s.pc[c].key == s.pc[d].key
    ensures c == d
  {
    RunKeepsInvariants(rank, now, steps);
  }

  /**
   After an outcome is stored no request for its key starts until the outcome has expired,
   which is at least the default TTL later.
   */
  lemma NoRefetchBeforeExpiry(rank: Ranking, now: int, steps: seq<Step>, i: nat, j: nat)
    requires IsRun(rank, Init(now), steps)
    requires var log := Run(rank, Init(now), steps).log;
      i < j < |log| && log[i].Stored? && log[j].Started? && log[i].key == log[j].key
    ensures var log := Run(rank, Init(now), steps).log;
      log[j].time > log[i].expiry && IsExpiry(log[i].expiry, log[i].time, log[i].validUntil)
  {
    RunKeepsInvariants(rank, now, steps);
  }

  /** The stored response whose ranking, for this very input, the details are, current at the given time. */
  predicate Answers(e: Event, input: RankingInput, details: seq<Recommendation>, at: int) {
    e.Stored? && e.time <= at <= e.expiry && RankedRecommendations(e.id, e.choices, input) == Ok(details)
  }

  /**
   End to end: whatever a call returns is the provider's ranking, for the caller's own input,
   of a response that was stored and had not expired when the value was looked up. It does
   not matter who fetched it, for which zone order or count, or who waited for whom.
   */
  lemma ReturnedValuesAnswerTheCaller(hash: Fingerprint -> nat, now: int, steps: seq<Step>, c: Caller)
    requires IsRun(RankedRecommendations, Init(now), steps) && Keyed(hash, steps) && NoCollisions(hash, steps)
    requires var s := Run(RankedRecommendations, Init(now), steps); c in s.pc && s.pc[c].Done? && s.pc[c].outcome.Got?
    ensures var s := Run(RankedRecommendations, Init(now), steps);
      exists i :: 0 <= i < |s.log| && Answers(s.log[i], s.pc[c].input, s.pc[c].outcome.details, s.pc[c].outcome.at)
  {
    var s := Run(RankedRecommendations, Init(now), steps);
    RunKeepsInvariants(RankedRecommendations, now, steps);
    RunKeysFit(hash, RankedRecommendations, now, steps);
    var mine, got := s.pc[c].input, s.pc[c].outcome;
    var i :| 0 <= i < |s.log| && StoredAs(s.log[i], s.pc[c].key, got.details, got.at);
    var e := s.log[i];
    SameKeySameOutcome(hash, mine, e.input, e.id, e.choices);
    assert Answers(s.log[i], mine, got.details, got.at);
  }

  // ----- When a call fails, and what it gets -----

  /** A reply that yields no recommendations for the input. */
  predicate Useless(rank: Ranking, reply: Reply, input: RankingInput) {
    reply.Error? || rank(reply.id, reply.choices, input).Err?
  }

  /** The outcome of the flight led by `leader` is the reply to its request, if it made one. */
  ghost predicate Decided(rank: Ranking, steps: seq<Step>, leader: Caller, input: RankingInput, outcome: Outcome) {
    && (outcome.Failed? <==> exists reply :: Respond(leader, reply) in steps && Useless(rank, reply, input))
    && (forall reply :: Respond(leader, reply) in steps && !Useless(rank, reply, input) ==>
          outcome.Got? && rank(reply.id, reply.choices, input) == Ok(outcome.details))
  }

  /** A call that needed no flight failed exactly on invalid input; all others are decided by their flight. */
  ghost predicate CallExplained(rank: Ranking, steps: seq<Step>, s: State, c: Caller)
    requires c in s.pc
  {
    match s.pc[c]
    case Leaving(_, input, outcome) => ValidInput(input) && Decided(rank, steps, c, input, outcome)
    case Done(_, input, None, outcome) => outcome.Failed? <==> !ValidInput(input)
    case Done(key, input, Some(leader), outcome) =>
      && ValidInput(input) && leader in s.pc && s.pc[leader].Done? && s.pc[leader].key == key
      && Decided(rank, steps, leader, s.pc[leader].input, outcome)
    case pc => ValidInput(pc.input)
  }

  ghost predicate Explained(rank: Ranking, steps: seq<Step>, s: State) {
    && (forall c :: c in s.pc ==> CallExplained(rank, steps, s, c))
    && (forall c, reply :: Respond(c, reply) in steps ==> c in s.pc && (s.pc[c].Leaving? || s.pc[c].Done?))
  }

  lemma DecidedStays(rank: Ranking, front: seq<Step>, last: Step, leader: Caller, input: RankingInput, outcome: Outcome)
    requires Decided(rank, front, leader, input, outcome) && !(last.Respond? && last.caller == leader)
    ensures Decided(rank, front + [last], leader, input, outcome)
  {
    assert forall reply :: Respond(leader, reply) in front + [last] <==> Respond(leader, reply) in front;
  }

  /** Calls that a step leaves where they are stay explained. */
  lemma OthersStayExplained(rank: Ranking, front: seq<Step>, last: Step, s: State, t: State, c: Caller)
    requires Explained(rank, front, s) && c in s.pc && c in t.pc && t.pc[c] == s.pc[c]
    requires forall d :: d in s.pc && s.pc[d].Done? ==> d in t.pc && t.pc[d] == s.pc[d]
    requires last.Respond? ==> last.caller in s.pc && s.pc[last.caller].Fetching?
    ensures CallExplained(rank, front + [last], t, c)
  {
    var pc := s.pc[c];
    assert CallExplained(rank, front, s, c);
    if pc.Leaving? {
      DecidedStays(rank, front, last, c, pc.input, pc.outcome);
    } else if pc.Done? && pc.flight.Some? {
      DecidedStays(rank, front, last, pc.flight.value, s.pc[pc.flight.value].input, pc.outcome);
    }
  }

  lemma RespondExplained(rank: Ranking, front: seq<Step>, s: State, c: Caller, reply: Reply)
    requires Enabled(s, Respond(c, reply)) && Explained(rank, front, s)
    ensures CallExplained(rank, front + [Respond(c, reply)], Apply(rank, s, Respond(c, reply)), c)
  {
    var steps := front + [Respond(c, reply)];
    assert CallExplained(rank, front, s, c);
    assert forall r :: Respond(c, r) in steps <==> r == reply by {
      assert steps[|front|] == Respond(c, reply);
    }
  }

  lemma LeaveExplained(rank: Ranking, front: seq<Step>, s: State, c: Caller, d: Caller)
    requires Enabled(s, Leave(c)) && Explained(rank, front, s) && d in s.pc
    ensures CallExplained(rank, front + [Leave(c)], Apply(rank, s, Leave(c)), d)
  {
    var t := Apply(rank, s, Leave(c));
    assert CallExplained(rank, front, s, c) && CallExplained(rank, front, s, d);
    if t.pc[d] == s.pc[d] {
      OthersStayExplained(rank, front, Leave(c), s, t, d);
    } else {
      DecidedStays(rank, front, Leave(c), c, s.pc[c].input, s.pc[c].outcome);
    }
  }

  lemma MoverExplained(rank: Ranking, front: seq<Step>, s: State, step: Step)
    requires Enabled(s, step) && Explained(rank, front, s) && (step.Call? || step.Join? || step.Recheck?)
    ensures CallExplained(rank, front + [step], Apply(rank, s, step), step.caller)
  {
    var c := step.caller;
    assert c in s.pc ==> CallExplained(rank, front, s, c);
    assert forall r :: Respond(c, r) in front + [step] ==> Respond(c, r) in front;
  }

  lemma StepExplained(rank: Ranking, front: seq<Step>, s: State, step: Step)
    requires Enabled(s, step) && Explained(rank, front, s)
    ensures Explained(rank, front + [step], Apply(rank, s, step))
  {
    var steps, t := front + [step], Apply(rank, s, step);
    forall c | c in t.pc ensures CallExplained(rank, steps, t, c) {
      if step.Leave? {
        LeaveExplained(rank, front, s, step.caller, c);
      } else if step.Respond? && step.caller == c {
        RespondExplained(rank, front, s, c, step.reply);
      } else if (step.Call? || step.Join? || step.Recheck?) && step.caller == c {
        MoverExplained(rank, front, s, step);
      } else {
        OthersStayExplained(rank, front, step, s, t, c);
      }
    }
    forall c, reply | Respond(c, reply) in steps ensures c in t.pc && (t.pc[c].Leaving? || t.pc[c].Done?) {
      assert Respond(c, reply) in front || Respond(c, reply) == step;
    }
  }

  lemma {:induction false} RunExplained(rank: Ranking, now: int, steps: seq<Step>)
    requires IsRun(rank, Init(now), steps)
    ensures Explained(rank, steps, Run(rank, Init(now), steps))
  {
    if steps != [] {
      var front, last := steps[..|steps| - 1], steps[|steps| - 1];
      RunExplained(rank, now, front);
      StepExplained(rank, front, Run(rank, Init(now), front), last);
      assert front + [last] == steps;
    }
  }

  /**
   A call ends in failure exactly if its input is invalid, or the request of its flight was
   answered with an error or with a response that does not rank.
   */
  lemma CallsFailExactly(rank: Ranking, now: int, steps: seq<Step>, c: Caller)
    requires IsRun(rank, Init(now), steps)
    requires var s := Run(rank, Init(now), steps); c in s.pc && s.pc[c].Done?
    ensures var s := Run(rank, Init(now), steps);
      var input, flight := s.pc[c].input, s.pc[c].flight;
      && (flight.Some? ==> flight.value in s.pc && s.pc[flight.value].key == s.pc[c].key)
      && (s.pc[c].outcome.Failed? <==>
            || input.vmSizes == [] || input.count <= 0
            || (input.capacityType != "on-demand" && input.capacityType != "spot")
            || (input.osType != "linux" && input.osType != "windows")
            || (flight.Some? &&
                  exists reply :: Respond(flight.value, reply) in steps &&
                    (reply.Error? || rank(reply.id, reply.choices, s.pc[flight.value].input).Err?)))
  {
    RunExplained(rank, now, steps);
    var s := Run(rank, Init(now), steps);
    assert CallExplained(rank, steps, s, c);
    if s.pc[c].flight.Some? {
      var leader := s.pc[c].flight.value;
      assert forall reply :: Respond(leader, reply) in steps ==>
        (Useless(rank, reply, s.pc[leader].input) <==> reply.Error? || rank(reply.id, reply.choices, s.pc[leader].input).Err?);
    }
  }

  /** A response that ranks is what everyone in the flight gets. */
  lemma RankingsReachEveryCaller(rank: Ranking, now: int, steps: seq<Step>, c: Caller, leader: Caller, reply: Reply)
    requires IsRun(rank, Init(now), steps) && Respond(leader, reply) in steps && reply.Response?
    requires var s := Run(rank, Init(now), steps);
      && c in s.pc && s.pc[c].Done? && s.pc[c].flight == Some(leader)
      && leader in s.pc && rank(reply.id, reply.choices, s.pc[leader].input).Ok?
    ensures var s := Run(rank, Init(now), steps);
      && s.pc[c].outcome.Got?
      && s.pc[c].outcome.details == rank(reply.id, reply.choices, s.pc[leader].input).value
  {
    RunExplained(rank, now, steps);
    assert CallExplained(rank, steps, Run(rank, Init(now), steps), c);
    assert !Useless(rank, reply, Run(rank, Init(now), steps).pc[leader].input);
  }

  /**
   Ranking for the leader's input is ranking for the caller's own, zone order and count aside,
   so a call in a flight fails on a response exactly if its own ranking of it fails.
   */
  lemma FlightsRankForEveryCaller(hash: Fingerprint -> nat, now: int, steps: seq<Step>, c: Caller, id: string, choices: seq<Option<Choice>>)
    requires IsRun(RankedRecommendations, Init(now), steps) && Keyed(hash, steps) && NoCollisions(hash, steps)
    requires var s := Run(RankedRecommendations, Init(now), steps); c in s.pc && s.pc[c].Done? && s.pc[c].flight.Some?
    ensures var s := Run(RankedRecommendations, Init(now), steps);
      && s.pc[c].flight.value in s.pc
      && RankedRecommendations(id, choices, s.pc[s.pc[c].flight.value].input) == RankedRecommendations(id, choices, s.pc[c].input)
  {
    var s := Run(RankedRecommendations, Init(now), steps);
    CallsFailExactly(RankedRecommendations, now, steps, c);
    RunKeysFit(hash, RankedRecommendations, now, steps);
    SameKeySameOutcome(hash, s.pc[c].input, s.pc[s.pc[c].flight.value].input, id, choices);
  }

  /** The flight a call takes part in. */
  function FlightOf(c: Caller, pc: Pc): Option<Caller> {
    match pc
    case Missed(_, _) => None
    case Waiting(_, _, leader) => Some(leader)
    case Done(_, _, flight, _) => flight
    case _ => Some(c)
  }

  lemma StepKeepsFlight(rank: Ranking, s: State, step: Step, c: Caller)
    requires Enabled(s, step) && FlightsAgree(s) && c in s.pc && FlightOf(c, s.pc[c]).Some?
    ensures var t := Apply(rank, s, step);
      c in t.pc && FlightOf(c, t.pc[c]) == FlightOf(c, s.pc[c]) && t.pc[c].key == s.pc[c].key && t.pc[c].input == s.pc[c].input
  {
  }

  /** Whoever joins or leads a flight is answered by that flight, for the input it called with. */
  lemma {:induction false} FlightIsKept(rank: Ranking, s: State, later: seq<Step>, c: Caller)
    requires FlightsAgree(s) && IsRun(rank, s, later) && c in s.pc && FlightOf(c, s.pc[c]).Some?
    ensures var t := Run(rank, s, later);
      && FlightsAgree(t) && c in t.pc && FlightOf(c, t.pc[c]) == FlightOf(c, s.pc[c])
      && t.pc[c].key == s.pc[c].key && t.pc[c].input == s.pc[c].input
  {
    if later != [] {
      var front, last := later[..|later| - 1], later[|later| - 1];
      FlightIsKept(rank, s, front, c);
      StepFlights(rank, Run(rank, s, front), last);
      StepKeepsFlight(rank, Run(rank, s, front), last, c);
    }
  }

  // ----- How long an outcome is served -----

  /** A stored outcome for the key that is at most 45 s old, or within the validity its response came with. */
  predicate Serves(e: Event, key: Key, clock: int) {
    && e.Stored? && e.key == key
    && (clock <= e.time + 45000 || (e.validUntil.Some? && clock <= e.validUntil.value))
  }

  lemma LiveExactly(rank: Ranking, now: int, steps: seq<Step>, key: Key)
    requires IsRun(rank, Init(now), steps)
    ensures var s := Run(rank, Init(now), steps);
      Live(s, key) <==> exists i :: 0 <= i < |s.log| && Serves(s.log[i], key, s.now)
    ensures var s := Run(rank, Init(now), steps);
      forall i :: 0 <= i < |s.log| && Serves(s.log[i], key, s.now) ==> Live(s, key) && s.cache[key].details == s.log[i].details
  {
    RunKeepsInvariants(rank, now, steps);
    var s := Run(rank, Init(now), steps);
    if Live(s, key) {
      assert WasStored(s, key, s.cache[key].details, s.now);
      var i :| 0 <= i < |s.log| && StoredAs(s.log[i], key, s.cache[key].details, s.now);
      assert Serves(s.log[i], key, s.now);
    }
  }

  /**
   A call with valid input is answered at once, with the stored details and without starting a
   request, exactly if an outcome stored for its key is at most 45 s old or still valid.
   Otherwise it goes on to join or lead a flight.
   */
  lemma ServedFromCacheExactly(rank: Ranking, now: int, steps: seq<Step>, c: Caller, key: Key, input: RankingInput)
    requires IsRun(rank, Init(now), steps) && c !in Run(rank, Init(now), steps).pc
    requires input.vmSizes != [] && input.count > 0
    requires input.capacityType == "on-demand" || input.capacityType == "spot"
    requires input.osType == "linux" || input.osType == "windows"
    ensures var s := Run(rank, Init(now), steps);
      var t := Apply(rank, s, Call(c, key, input));
      && t.log == s.log && t.cache == s.cache
      && (if exists i :: 0 <= i < |s.log| && Serves(s.log[i], key, s.now) then
            forall i :: 0 <= i < |s.log| && Serves(s.log[i], key, s.now) ==>
              t.pc[c] == Done(key, input, None, Got(s.log[i].details, s.now))
          else t.pc[c] == Missed(key, input))
  {
    LiveExactly(rank, now, steps, key);
  }

  lemma {:induction false} RunLogGrows(rank: Ranking, s: State, steps: seq<Step>)
    requires IsRun(rank, s, steps)
    ensures s.log <= Run(rank, s, steps).log
  {
    if steps != [] {
      RunLogGrows(rank, s, steps[..|steps| - 1]);
      LogGrows(rank, Run(rank, s, steps[..|steps| - 1]), steps[|steps| - 1]);
    }
  }

  lemma {:induction false} RunOfTwo(rank: Ranking, s: State, a: seq<Step>, b: seq<Step>)
    requires IsRun(rank, s, a) && IsRun(rank, Run(rank, s, a), b)
    ensures IsRun(rank, s, a + b) && Run(rank, s, a + b) == Run(rank, Run(rank, s, a), b)
  {
    if b == [] {
      assert a + b == a;
    } else {
      RunOfTwo(rank, s, a, b[..|b| - 1]);
      assert (a + b)[..|a + b| - 1] == a + b[..|b| - 1];
    }
  }

  /**
   When a response that ranks arrives at time `t`, every call for its key with valid input until
   `t + 45000`, or until the response's own validity if that is later, is answered at once with
   its ranking and starts no request, whatever happens in between.
   */
  lemma ResponseIsServed(rank: Ranking, now: int, front: seq<Step>, leader: Caller, reply: Reply, later: seq<Step>,
                         c: Caller, input: RankingInput)
    requires IsRun(rank, Init(now), front) && reply.Response?
    requires var s := Run(rank, Init(now), front);
      && Enabled(s, Respond(leader, reply)) && rank(reply.id, reply.choices, s.pc[leader].input).Ok?
      && IsRun(rank, Apply(rank, s, Respond(leader, reply)), later)
    requires var s := Run(rank, Init(now), front);
      var t := Run(rank, Apply(rank, s, Respond(leader, reply)), later);
      && c !in t.pc
      && (t.now <= s.now + 45000 || (reply.validUntil.Some? && t.now <= reply.validUntil.value))
    requires input.vmSizes != [] && input.count > 0
    requires input.capacityType == "on-demand" || input.capacityType == "spot"
    requires input.osType == "linux" || input.osType == "windows"
    ensures var s := Run(rank, Init(now), front);
      var t := Run(rank, Apply(rank, s, Respond(leader, reply)), later);
      var u := Apply(rank, t, Call(c, s.pc[leader].key, input));
      && u.pc[c] == Done(s.pc[leader].key, input, None, Got(rank(reply.id, reply.choices, s.pc[leader].input).value, t.now))
      && u.log == t.log
  {
    var s, step := Run(rank, Init(now), front), Respond(leader, reply);
    var stored := Apply(rank, s, step);
    var t := Run(rank, stored, later);
    var steps := front + [step] + later;
    assert (front + [step])[..|front|] == front;
    RunOfTwo(rank, Init(now), front + [step], later);
    RunLogGrows(rank, stored, later);
    var key, e := s.pc[leader].key, stored.log[|s.log|];
    assert t.log[|s.log|] == e && Serves(e, key, t.now);
    ServedFromCacheExactly(rank, now, steps, c, key, input);
  }

  /** No caller is left behind: a flight always has a leader who can move, and its leaving frees every waiter. */
  lemma FlightsCanFinish(rank: Ranking, now: int, steps: seq<Step>, c: Caller)
    requires IsRun(rank, Init(now), steps)
    requires var s := Run(rank, Init(now), steps); c in s.pc && s.pc[c].Waiting?
    ensures var s := Run(rank, Init(now), steps);
      var key := s.pc[c].key;
      && key in s.flights
      && var leader := s.flights[key];
      && (Enabled(s, Recheck(leader)) || Enabled(s, Respond(leader, Error)) || Enabled(s, Leave(leader)))
      && (Enabled(s, Leave(leader)) ==> Apply(rank, s, Leave(leader)).pc[c] == Done(key, s.pc[c].input, Some(leader), s.pc[leader].outcome))
  {
    RunKeepsInvariants(rank, now, steps);
  }
}
