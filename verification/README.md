# Verified models of karpenter-provider-azure

Dafny models of the parts of the Azure provider for Karpenter whose correctness is hardest to
see from the code, with proofs of what callers rely on. `dafny verify dfyconfig.toml` checks
everything.

## What is modelled

**Unavailable offerings** (`OfferingKeys`, `OfferingsModel`, `UnavailableOfferings`,
`OfferingsEffects`, `OfferingsSeqNum`, `OfferingsHistory`, `OfferingsLifetimes`). Two TTL caches under printed string
keys, marks of four kinds in any number of reservation-group scopes, and a sequence number that
downstream code uses to detect changes. The class takes the steps of a state machine in which
marks, flushes, invalidations, the clock, both janitors and the additions to the sequence number
interleave; it records them in a ghost history, and its reads are specified by that history. Four
views of it are proved:

- the effect of one call on the answer for every offering in every scope, as an equivalence;
- the sequence number as a change detector over every run: it never hides an offering silently, and
  equal numbers mean equal answers exactly where no blocking entry has lapsed unswept;
- a refinement: after any run the string-keyed caches answer exactly as the history of marks says,
  with no cache and no printed key in the specification. Scope isolation is a corollary, stated as
  non-interference: striking every other scope's steps from a run leaves a scope's answers alone;
- lifetimes, in clock times and TTLs: an offering is unavailable exactly while a mark that covers it runs.

**SKU Mix Placement recommendations** (`StableSort`, `PlacementRanking`, `Recommendations`,
`RecommendationCacheKey`, `RecommendationFetch`, `RecommendationDetails`). The nested comparison of
placement choices is characterised by its first deciding criterion; the sorted and stable arrangement is
unique; flattening recommends every offered size, zone and capacity type once, from an unbeaten choice. In
every interleaving at most one request per key is in flight, a call fails exactly for the reasons written out,
and what it otherwise receives is the ranking, for its own input, of a current response; its copy shares no
object with the cache or with another caller's.

**Instance promises** (`InstancePromises`). Interleaved goroutines, any of which may panic: the wait
group counts exactly the unfinished ones, and a claim is deleted only after a failed wait, the end of
the launched-wait and one cleanup attempt.

**In-flight quota** (`QuotaModel`, `QuotaEffects`, `QuotaProvider`). Conservation of the per-quota totals
over every run of creates, deletes, resets and overlapping refreshes, a sequence number that determines every
quota answer, and the exact vCPUs that fit after each accepted report.

**Node images, name hashes, subnet IDs** (`NodeImageVersions`, `VersionNumbers`, `AlphanumericHash`, `SubnetId`).

## Assumptions

- go-cache: reads hide entries whose expiry has passed; a zero duration means the cache's default and
  any other non-positive one never expires; `Set` overwrites silently; `Delete` and the janitor report
  each entry they remove once; `Flush` reports nothing. Nothing is assumed about TTLs being positive.
- `sort.SliceStable` returns a sorted, stable arrangement; `ContractDeterminesSort` shows that this
  fixes its result. `sort.Strings` sorts by the order of the characters.
- singleflight runs one function per key at a time and hands its result to everyone who joined.
- Hash functions are parameters. Cache-key soundness asks only that the two fingerprints at hand do not
  collide.
- Text is ASCII where letter case matters. Each cache method is one atomic step; adding to the sequence
  number is a separate one.
- Well-formed offering arguments: no component contains a colon, the capacity type is neither `skuZone`
  nor `crg`, and an unnamed SKU without a zone is not spot. `ColonsCollide` shows why. The sequence-number
  theorems also need a SKU name to fix the SKU; reads by family need a vCPU count of at least -1.

## Findings

- The sequence number does not notice an entry that expires until the janitor removes it
  (`ExpiryIsSilent`). Exactly when equal numbers do mean equal answers is
  `SameSeqNumSameAnswersExactly`.
- A mark under a key that is already marked replaces the time left, also by less: a spot mark for 180
  renewed for 5 is over after 6 (`ShorterRenewalEndsEarly`). So a mark lasts its TTL exactly as far as
  `UnavailableExactly` says: until the last mark under its key runs out, or the key is cleared.
- The recommendation cache key sorts the zones but keeps repetitions, while ranking uses them as a set:
  at the provider's interface, repeating a zone refetches for the same outcome
  (`RepeatedZoneMissesTheCache`). The caller in this repository passes each zone once
  (pkg/providers/allocationstrategy/stages/sku_mix_rank.go:220-222).
- `isNewerVersion` is a strict partial order on all strings, so the image picked is unbeaten even when
  versions are malformed. It is a strict weak order on numeric versions, and every malformed version
  breaks it (`WeakOrderExactlyOnNumeric`).
- Base-36 names are injective on 64-bit hashes exactly from length 13 on.

## Model

| member | source | states |
|---|---|---|
| OfferingKeys.PrintSingleInjective | pkg/cache/unavailableofferings.go:396-407 | two well-formed single keys (offering in a scope, SKU-zone, all spot) print alike only if they are the same key |
| OfferingKeys.PrintFamilyInjective | pkg/cache/unavailableofferings.go:411-416 | family keys print alike exactly when scope, family, zone and capacity type agree up to letter case |
| OfferingKeys.GroupPrefixMatchesSingle | pkg/cache/unavailableofferings.go:379-384 | a group's prefix matches exactly the offering keys of that group among all single keys |
| OfferingKeys.GroupPrefixMatchesFamily | pkg/cache/unavailableofferings.go:385-389 | a group's prefix matches exactly that group's family keys |
| UnavailableOfferingsCache.DeleteGroup | pkg/cache/unavailableofferings.go:379-389 | the deletion loop removes exactly the listed entries with the prefix and fires one eviction for each |
| UnavailableOfferingsCache.UnavailableOfferings.constructor | pkg/cache/unavailableofferings.go:70-82 | a new cache is empty with an empty history |
| UnavailableOfferingsCache.UnavailableOfferings.ReadUnavailable | pkg/cache/unavailableofferings.go:151-171 | unavailable exactly if, in the object's own history, some mark that covers the offering still runs: the last one on its SKU and zone, on all spot or on itself, or one of an unbroken series on its family that reaches its size; clock and TTLs written out |
| UnavailableOfferingsCache.UnavailableOfferings.Look | pkg/cache/unavailableofferings.go:151-171 | the early-return read gives the model's verdict over SKU-zone, spot, family and single marks |
| UnavailableOfferingsCache.UnavailableOfferings.ReadSeqNum | pkg/cache/unavailableofferings.go:91-93 | callers read the 64-bit truncation of the count of additions |
| UnavailableOfferingsCache.UnavailableOfferings.ReadFamilyUnavailable | pkg/cache/unavailableofferings.go:173-191 | family verdict with the whole-family sentinel and the vCPU threshold |
| UnavailableOfferingsCache.UnavailableOfferings.MarkFamilyAtCpuCount | pkg/cache/unavailableofferings.go:225-259 | keeps the more restrictive live threshold, always resets the expiry, reports whether the threshold changed |
| UnavailableOfferingsCache.UnavailableOfferings.MarkWholeFamily | pkg/cache/unavailableofferings.go:215-221 | takes the whole-family step, publishes its change and extends the history by both |
| UnavailableOfferingsCache.UnavailableOfferings.MarkSpotWithTTL | pkg/cache/unavailableofferings.go:262-276 | takes the spot step; only a mark that was not live counts as a change; extends the history |
| UnavailableOfferingsCache.UnavailableOfferings.MarkSkuZoneWithTTL | pkg/cache/unavailableofferings.go:298-312 | takes the SKU-zone step and extends the history |
| UnavailableOfferingsCache.UnavailableOfferings.MarkOfferingWithTTL | pkg/cache/unavailableofferings.go:319-348 | takes the offering step, widening to the family outside groups only; extends the history |
| UnavailableOfferingsCache.UnavailableOfferings.FlushCaches | pkg/cache/unavailableofferings.go:360-366 | both caches become empty and one change is counted; extends the history |
| UnavailableOfferingsCache.UnavailableOfferings.InvalidateCapacityReservationGroup | pkg/cache/unavailableofferings.go:370-390 | takes the invalidation step; an empty id does nothing; extends the history |
| UnavailableOfferingsCache.UnavailableOfferings.DeleteExpiredSingle | pkg/cache/unavailableofferings.go:75-77 | the janitor removes expired entries and counts each; extends the history |
| UnavailableOfferingsCache.UnavailableOfferings.DeleteExpiredFamily | pkg/cache/unavailableofferings.go:78-80 | the same for the family cache |
| OfferingsModel.CallExtendsRun | pkg/cache/unavailableofferings.go:215-221 | a call's step followed by its additions is a run that ends with nothing owed |
| UnavailableOfferingsCache.CapacityReservationGroupView.constructor | pkg/cache/unavailableofferings.go:122-127 | a view's scope is the lower-cased id |
| UnavailableOfferingsCache.CapacityReservationGroupView.ReadUnavailable | pkg/cache/unavailableofferings.go:147-149 | the same for the view's group |
| UnavailableOfferingsCache.CapacityReservationGroupView.MarkOfferingWithTTL | pkg/cache/unavailableofferings.go:292-294 | records an offering mark of the view's scope in the history |
| UnavailableOfferingsCache.CapacityReservationGroupView.MarkWholeFamily | pkg/cache/unavailableofferings.go:211-213 | records a family mark of the view's scope in the history |
| UnavailableOfferingsCache.CapacityReservationGroupView.MarkSpotWithTTL | pkg/cache/unavailableofferings.go:280-282 | records a spot mark in no scope |
| OfferingsEffects.MarkFamilyAtBlocks | pkg/cache/unavailableofferings.go:225-259 | after a family mark a size is blocked exactly if it was before or has at least the mark's vCPU count in the same family, zone and capacity type |
| OfferingsEffects.MarkUnreservedExactly | pkg/cache/unavailableofferings.go:319-348 | an unreserved mark makes the offering and every same-family size with at least its vCPUs unavailable in the unreserved scope, and changes no other answer |
| OfferingsEffects.MarkInGroupExactly | pkg/cache/unavailableofferings.go:334-344 | the same mark in a group changes that one offering's answer in that group and no other |
| OfferingsEffects.MarkWholeFamilyExactly | pkg/cache/unavailableofferings.go:215-221 | blocking a family blocks all its sizes in that scope, zone and capacity type, nothing else |
| OfferingsEffects.MarkSkuZoneExactly | pkg/cache/unavailableofferings.go:296-312 | a SKU-zone mark covers that SKU and zone in every scope and capacity type, nothing else |
| OfferingsEffects.MarkSpotExactly | pkg/cache/unavailableofferings.go:261-276 | a spot mark makes every spot offering of every scope unavailable, nothing else |
| OfferingsEffects.InvalidateRemovesExactly | pkg/cache/unavailableofferings.go:368-390 | invalidation removes exactly the group's live entries from both caches and counts one change for each |
| OfferingsEffects.InvalidateExactly | pkg/cache/unavailableofferings.go:368-390 | afterwards the group is blocked only by SKU-zone and spot marks and every other scope answers as before |
| OfferingsEffects.SweepRemovesExactly | pkg/cache/unavailableofferings.go:75-80 | a janitor removes exactly the expired entries of its cache, leaves the rest as they are and reports each once |
| OfferingsEffects.StepReports | pkg/cache/unavailableofferings.go:215-366 | a mark reports at most one change, a flush exactly one; time and additions report none |
| OfferingsEffects.ColonsCollide | pkg/cache/unavailableofferings.go:402-407 | with a colon in a name, marking one offering makes a different one unavailable |
| OfferingsSeqNum.RepeatedMarkIsQuiet | pkg/cache/unavailableofferings.go:66-67 | repeating any mark reports no change |
| OfferingsSeqNum.QuietStepHidesNothing | pkg/cache/unavailableofferings.go:319-348 | a step that reports no change makes no offering unavailable, now or as of any earlier time |
| OfferingsSeqNum.QuietRunRetains | pkg/cache/unavailableofferings.go:66-82 | a run that reports no change keeps every entry, unchanged or renewed, and every family threshold |
| OfferingsSeqNum.SameAnswerExactlyUnlessLapsed | pkg/cache/unavailableofferings.go:66-82 | over a run that reports no change the answer for an offering stays the same if and only if the offering is unavailable at the end or none of its own blocking entries has lapsed during the run |
| OfferingsSeqNum.QuietRunHidesNothing | pkg/cache/unavailableofferings.go:215-348 | between two moments with the same number of changes no offering goes from available to unavailable |
| OfferingsSeqNum.QuietRunFreesOnlyByExpiry | pkg/cache/unavailableofferings.go:66-82 | an offering becomes available without a reported change only through an entry of its own that blocked it and lapsed since |
| OfferingsSeqNum.SameSeqNumSameAnswersExactly | pkg/cache/unavailableofferings.go:66-93 | equal 64-bit numbers with all additions made mean equal answers for an offering if and only if it is unavailable at the later moment or none of its blocking entries has lapsed in between |
| OfferingsSeqNum.SameSeqNumSameAnswers | pkg/cache/unavailableofferings.go:66-93 | in particular they mean equal answers for every offering in every scope once all expired entries are swept |
| OfferingsSeqNum.ExpiryIsSilent | pkg/cache/unavailableofferings.go:66-67 | without the sweep an answer changes while the number stays |
| OfferingsHistory.MinCpuIsMinimum | pkg/cache/unavailableofferings.go:239-247 | the chain minimum blocks a vCPU count exactly if some mark of the chain does |
| OfferingsHistory.SingleFollowsHistory | pkg/cache/unavailableofferings.go:151-171 | after any run a single key is live exactly while its last standing mark is, with that mark's expiry |
| OfferingsHistory.FamilyFollowsHistory | pkg/cache/unavailableofferings.go:225-259 | after any run a family key is live exactly while its unbroken chain of marks is; the stored threshold is the chain's minimum, the expiry that of its last mark |
| OfferingsHistory.AnswersFollowHistory | pkg/cache/unavailableofferings.go:151-191 | after any run from empty caches every answer equals the one read off the standing marks and chains of the history; `OfferingsLifetimes.UnavailableExactly` says how long those stand |
| OfferingsHistory.ScopesDoNotInterfere | pkg/cache/unavailableofferings.go:103-107 | striking all other scopes' marks and invalidations (and spot marks, for other offerings) from a run changes no answer of a scope |
| OfferingsHistory.GroupRefusalHasCause | pkg/cache/unavailableofferings.go:103-107 | a refused non-spot offering of a group has a mark in force on its SKU and zone, on itself in the same group, or on its family in the same group |
| OfferingsLifetimes.UnavailableExactly | pkg/cache/unavailableofferings.go:151-191 | after any run from empty caches an offering is unavailable if and only if a mark that covers it has neither run out (clock past its time plus its TTL, the default for a zero TTL) nor been cleared or replaced |
| OfferingsLifetimes.LastMarkDecides | pkg/cache/unavailableofferings.go:262-276 | an entry is live exactly until the time of the last mark under its key plus that mark's TTL, so a renewal replaces the time left |
| OfferingsLifetimes.MarkLastsItsTtl | pkg/cache/unavailableofferings.go:151-348 | each of the four kinds of mark, taken at clock t with TTL d, keeps every offering it names unavailable through t + d (for ever if d is not positive), in every run that does not flush it, invalidate its group or renew it for less |
| OfferingsLifetimes.OnlyMarkDecides | pkg/cache/unavailableofferings.go:151-348 | after a run with one mark, unavailable are exactly the offerings it names, and outside groups the same family's sizes with at least its vCPUs, while its TTL runs and nothing wiped it out |
| OfferingsLifetimes.NothingOutlastsTheOnlyMark | pkg/cache/unavailableofferings.go:151-348 | after a run with one mark every offering is available at every clock past t + d |
| OfferingsLifetimes.ShorterRenewalEndsEarly | pkg/cache/unavailableofferings.go:262-276 | a spot mark for 180 renewed for 5 is over after 6 |
| StableSort.SortContract | pkg/providers/capacityrecommendation/capacity_recommendation.go:266-268 | the sort returns a sorted, stable permutation for every strict weak order |
| StableSort.ContractDeterminesSort | pkg/providers/capacityrecommendation/capacity_recommendation.go:266-268 | any sorted and stable arrangement is that result |
| PlacementRanking.SkuStats | pkg/providers/capacityrecommendation/capacity_recommendation.go:400-418 | capacity is the 32-bit truncation of the exact sum for the size (`CapacityIsSum`); the zone count is that of the requested zones reached |
| PlacementRanking.RequestedZoneCoverage | pkg/providers/capacityrecommendation/capacity_recommendation.go:420-431 | number of distinct requested zones any split reaches |
| PlacementRanking.PlacementChoiceIsBetter | pkg/providers/capacityrecommendation/capacity_recommendation.go:367-398 | true exactly if the score is higher, or scores are equal and, at the first size in priority order where the choices differ, the candidate has more capacity or the same in more requested zones, or they tie on all sizes and it reaches more requested zones |
| PlacementRanking.CapacityIsSum | pkg/providers/capacityrecommendation/capacity_recommendation.go:400-418 | the accumulated capacity is the sum over the list of capacities of the size's splits |
| PlacementRanking.BetterMeansOutranks | pkg/providers/capacityrecommendation/capacity_recommendation.go:367-398 | the order the sort uses is that comparison, for all choices and inputs |
| PlacementRanking.FirstDifferenceDecides | pkg/providers/capacityrecommendation/capacity_recommendation.go:381-397 | between equal scores with the first i sizes tied, size i's capacity decides, then its requested zones, whatever the rest; with all sizes tied, the requested zones reached |
| PlacementRanking.TiedMeansSameRank | pkg/providers/capacityrecommendation/capacity_recommendation.go:381-397 | choices tie exactly when their ranks are equal |
| PlacementRanking.BetterIsStrictWeakOrder | pkg/providers/capacityrecommendation/capacity_recommendation.go:367-398 | the comparison is a strict weak order for every input |
| PlacementRanking.SortedPlacementChoices | pkg/providers/capacityrecommendation/capacity_recommendation.go:258-270 | every non-nil choice as often as in the response, no later one outranking an earlier one, response order kept between ties |
| Recommendations.AddSplits | pkg/providers/capacityrecommendation/capacity_recommendation.go:285-298 | the inner loop adds one choice's first-seen keys or stops at its first invalid split |
| Recommendations.RecommendationsFromChoices | pkg/providers/capacityrecommendation/capacity_recommendation.go:278-304 | on success, no two results agree in size, zone and capacity type, every split has its result, and each tells the id, capacity and score of the first split of that size, zone and capacity type, in the order of those splits; otherwise the first error |
| Recommendations.FlatteningTakesFirst | pkg/providers/capacityrecommendation/capacity_recommendation.go:278-340 | the same of the specification, on the fields of splits and results |
| Recommendations.RecommendFailsExactly | pkg/providers/capacityrecommendation/capacity_recommendation.go:278-322 | it succeeds exactly if every choice and split is valid and there is at least one split |
| Recommendations.RankingFailsExactly | pkg/providers/capacityrecommendation/capacity_recommendation.go:164-178 | a response ranks exactly if all its non-nil choices and splits are valid and there is a split, whatever the input |
| Recommendations.RecommendationsAreBest | pkg/providers/capacityrecommendation/capacity_recommendation.go:255-304 | for a whole response: no two recommendations agree in size, zone and capacity type; every split of every choice has one with its name, zone (empty if none) and on-demand for Regular, spot for Spot; each tells the response's id and the capacity and score of a matching split whose choice no choice with a matching split outranks; scores do not increase |
| RecommendationCacheKey.SortedZonesIffPermuted | pkg/providers/capacityrecommendation/capacity_recommendation.go:453-454 | two zone lists sort alike exactly if they are permutations of each other |
| RecommendationCacheKey.SameFingerprintExactly | pkg/providers/capacityrecommendation/capacity_recommendation.go:452-470 | what is hashed is equal exactly if capacity type, OS, sizes in order and zones in any order are |
| RecommendationCacheKey.OutcomeUsesZonesAsSet | pkg/providers/capacityrecommendation/capacity_recommendation.go:379-397 | ranking depends on the sizes and on the zones as a set, never on the count |
| RecommendationCacheKey.SameKeySameOutcome | pkg/providers/capacityrecommendation/capacity_recommendation.go:452-470 | requests with the same key get the same ranked recommendations from the same response |
| RecommendationCacheKey.KeyIgnoresZoneOrderAndCount | pkg/providers/capacityrecommendation/capacity_recommendation.go:452-470 | reordering zones or changing the count keeps the key |
| RecommendationCacheKey.RepeatedZoneMissesTheCache | pkg/providers/capacityrecommendation/capacity_recommendation.go:453-464 | repeating a zone changes what is hashed, not the outcome |
| RecommendationFetch.TtlFor | pkg/providers/capacityrecommendation/capacity_recommendation.go:184-198 | the TTL reaches the response's validity and the default, and exceeds the default only to meet the validity exactly |
| RecommendationFetch.RunKeepsInvariants | pkg/providers/capacityrecommendation/capacity_recommendation.go:111-214 | in every interleaving flights and callers agree, stored outcomes stay until the later of 45 s and their response's validity, requests start only on stale keys, and what is stored is the ranking of its response |
| RecommendationFetch.AtMostOneFetchPerKey | pkg/providers/capacityrecommendation/capacity_recommendation.go:127-134 | at most one request per key is in flight |
| RecommendationFetch.NoRefetchBeforeExpiry | pkg/providers/capacityrecommendation/capacity_recommendation.go:184-200 | after an outcome is stored no request for the key starts before the later of 45 s and the response's validity is over |
| RecommendationFetch.ReturnedValuesAnswerTheCaller | pkg/providers/capacityrecommendation/capacity_recommendation.go:111-202 | what a call returns is the ranking, for its own input, of a stored response that had not expired when it was looked up |
| RecommendationFetch.CallsFailExactly | pkg/providers/capacityrecommendation/capacity_recommendation.go:111-178 | a call ends in failure if and only if it has no sizes, a count that is not positive, another capacity type or OS than the supported ones, or the request of its flight got an error or a response that does not rank |
| RecommendationFetch.RankingsReachEveryCaller | pkg/providers/capacityrecommendation/capacity_recommendation.go:127-143 | a response that ranks is what its leader and everyone in the flight get |
| RecommendationFetch.FlightIsKept | pkg/providers/capacityrecommendation/capacity_recommendation.go:127-143 | whoever leads or joins a flight is answered by that flight, under the key and for the input it called with |
| RecommendationFetch.FlightsRankForEveryCaller | pkg/providers/capacityrecommendation/capacity_recommendation.go:127-143 | barring hash collisions, the ranking for the leader's input is the one for each caller's own |
| RecommendationFetch.ServedFromCacheExactly | pkg/providers/capacityrecommendation/capacity_recommendation.go:120-126 | a valid call is answered at once with the stored details and starts no request if and only if an outcome stored for its key is at most 45000 ms old or within its response's validity |
| RecommendationFetch.ResponseIsServed | pkg/providers/capacityrecommendation/capacity_recommendation.go:184-214 | once a response that ranks arrives at t, every valid call for its key until the later of t + 45000 and its validity gets its ranking and starts no request, whatever happens in between |
| RecommendationFetch.FlightsCanFinish | pkg/providers/capacityrecommendation/capacity_recommendation.go:127-138 | a waiting caller always has a leader who can move, and the leader's leaving serves it |
| RecommendationDetails.ClonePointer | pkg/providers/capacityrecommendation/capacity_recommendation.go:492-498 | new target, same value, nil stays nil |
| RecommendationDetails.CloneLimit | pkg/providers/capacityrecommendation/capacity_recommendation.go:481-486 | a limit's copy consists of new objects with equal contents |
| RecommendationDetails.Clone | pkg/providers/capacityrecommendation/capacity_recommendation.go:472-490 | a copy of the details equals the original and shares no object with it |
| RecommendationDetails.ContentsTellEverything | pkg/providers/capacityrecommendation/capacity_recommendation.go:472-490 | equal contents mean equal recommendations and, field by field, equal limits with nil where the other has nil |
| RecommendationDetails.DetailsCache.GetCached | pkg/providers/capacityrecommendation/capacity_recommendation.go:204-214 | a live entry yields new objects equal to the cached value; an expired one is no hit |
| RecommendationDetails.DetailsCache.FirstLook | pkg/providers/capacityrecommendation/capacity_recommendation.go:120-124 | a hit before the flight goes to the caller as its own copy |
| RecommendationDetails.DetailsCache.SecondLook | pkg/providers/capacityrecommendation/capacity_recommendation.go:128-132 | a hit inside the flight becomes the flight's value and stays with the provider |
| RecommendationDetails.DetailsCache.Store | pkg/providers/capacityrecommendation/capacity_recommendation.go:179-201 | storing caches the outcome until the later of 45 s and its validity and yields a separate copy for the flight |
| RecommendationDetails.DetailsCache.FinishFlight | pkg/providers/capacityrecommendation/capacity_recommendation.go:139-143 | every caller of a flight, whether it fetched or hit, gets its own new copy |
| RecommendationDetails.DetailsCache.CallersMutate | pkg/providers/capacityrecommendation/capacity_recommendation.go:472-490 | arbitrary writes to everything ever handed out change no cached value |
| RecommendationDetails.DetailsCache.HitMutateHit | pkg/providers/capacityrecommendation/capacity_recommendation.go:111-144 | hits before and inside a flight, with callers scribbling in between, all see the value first cached, and no two copies share an object |
| InstancePromises.RunKeepsInvariants | pkg/cloudprovider/cloudprovider.go:258-373 | in every run the wait group counts the unfinished goroutines and each task's acts match its program counter |
| InstancePromises.WaitReturnsOnlyWhenAllEnded | pkg/cloudprovider/cloudprovider.go:115-118 | the counter is never negative and is zero exactly when every goroutine has ended, panicking ones included |
| InstancePromises.DeletionIsEarned | pkg/cloudprovider/cloudprovider.go:291-315 | a claim is deleted only after a failed wait, the end of the launched-wait and one cleanup attempt, in that order, and never for a standalone claim |
| InstancePromises.SuccessIsLeftAlone | pkg/cloudprovider/cloudprovider.go:291-322 | a successful wait leads to no cleanup and no deletion; cleanup is attempted at most once |
| InstancePromises.FailureIsCleanedUp | pkg/cloudprovider/cloudprovider.go:300-322 | a goroutine that ends without panicking cleaned up and deleted exactly if its wait failed |
| InstancePromises.StandaloneIsSynchronous | pkg/cloudprovider/cloudprovider.go:260-271 | a standalone claim is never deleted here and its call fails exactly after a failed wait and one cleanup |
| InstancePromises.RecordFollowsRun | pkg/cloudprovider/cloudprovider.go:258-373 | a task's record is the sequence of waits, ends of the launched-wait, cleanups and deletions the run made for it; reads that fail otherwise or find the claim not launched do not end the wait |
| InstancePromises.EndedMeansHandled | pkg/cloudprovider/cloudprovider.go:288-322 | for a goroutine that ended without panicking the run has a cleanup and a deletion if and only if its promise returned an error |
| InstancePromises.DeletionComesLast | pkg/cloudprovider/cloudprovider.go:288-322 | before a run deletes a claim it has seen the promise fail, the launched-wait end and one cleanup, in that order |
| InstancePromises.StandaloneReportsItsPromise | pkg/cloudprovider/cloudprovider.go:260-271 | a standalone call returns what its promise did, cleans up exactly on failure and deletes nothing |
| QuotaProvider.Survivors | pkg/providers/quota/quota.go:254-264 | the loop keeps the adjustments past the watermark and totals them per quota name |
| QuotaProvider.DropExpired | pkg/providers/quota/quota.go:501-505 | the loop removes exactly the tombstones older than their TTL |
| QuotaProvider.FindOldest | pkg/providers/quota/quota.go:511-518 | the loop finds a tombstone no other is older than |
| QuotaProvider.Provider.constructor | pkg/providers/quota/quota.go:144-164 | a new provider is the empty state |
| QuotaProvider.Provider.PruneTombstones | pkg/providers/quota/quota.go:497-507 | prunes at most once per interval |
| QuotaProvider.Provider.BeginRefreshAt | pkg/providers/quota/quota.go:198-207 | marks the refresh and returns the current sequence number as watermark |
| QuotaProvider.Provider.FinishFailedRefresh | pkg/providers/quota/quota.go:209-215 | a failed refresh leaves snapshot and adjustments alone |
| QuotaProvider.Provider.PublishSnapshot | pkg/providers/quota/quota.go:244-267 | takes the publishing step |
| QuotaProvider.Provider.Create | pkg/providers/quota/quota.go:397-422 | records a create exactly when initialised, not refreshing, on the expected generation, with positive vCPUs, usable usage and nothing pending; then its adjustment is added and its quota name's total rises by the vCPUs, otherwise nothing changes |
| QuotaProvider.Provider.Delete | pkg/providers/quota/quota.go:424-479 | takes the deletion step, evicting an oldest tombstone if the set is full; the ledger changes exactly when initialised, with positive vCPUs and usable usage, no deletion seen in the last 1500 s and none pending |
| QuotaProvider.Provider.NoteDeletion | pkg/providers/quota/quota.go:439-454 | a recent tombstone makes the deletion a duplicate and is extended; otherwise one is set, in place of an oldest if the set is full |
| QuotaProvider.Provider.AdjustForDelete | pkg/providers/quota/quota.go:453-478 | takes back a pending create, ignores a pending delete, records one otherwise |
| QuotaProvider.Provider.InsertTombstone | pkg/providers/quota/quota.go:509-522 | a full set loses an oldest entry first |
| QuotaProvider.Provider.ResetAll | pkg/providers/quota/quota.go:524-548 | takes the reset step; an already reset provider is left alone |
| QuotaProvider.Provider.HasQuota | pkg/providers/quota/quota.go:365-389 | fails open without family, vCPU count or usable usage; otherwise compares with the limit less the effective usage |
| QuotaModel.TotalsAreExact | pkg/providers/quota/quota.go:118-122 | after every run the running total of a quota name is the sum of its pending adjustments |
| QuotaModel.QuotaAnswersAreExact | pkg/providers/quota/quota.go:377-388 | after every run a SKU has quota exactly when it fits under the limit beside the reported usage plus all pending adjustments, counted as at least zero |
| QuotaModel.RefreshKeepsOnlyDeletes | pkg/providers/quota/quota.go:256-266 | what survives a refresh are unchanged deletes recorded while it ran, so no total is above zero |
| QuotaModel.SameSeqNumSameQuota | pkg/providers/quota/quota.go:88-90 | between two moments with the same sequence number every quota answer is the same |
| QuotaModel.DeleteUndoesCreate | pkg/providers/quota/quota.go:453-472 | after any run an accepted delete takes back exactly the instance's pending create, under the quota name it was recorded for; only during a refresh does the delete stay in its place |
| QuotaModel.DeleteTwiceCountsOnce | pkg/providers/quota/quota.go:424-451 | across any run, refreshes and repeats included, a deletion seen again within the tombstone's TTL changes nothing in the ledger, unless the instance was created again or its tombstone evicted or reset |
| QuotaEffects.CreateUsesQuota | pkg/providers/quota/quota.go:397-422 | after any run an accepted create, conditions written out, adds one adjustment and raises the pending total of its quota name by its vCPUs and of no other: v vCPUs fit afterwards exactly if max(0, usage + pending + its vCPUs) + v is within the limit, and other quotas answer as before |
| QuotaEffects.OtherCreatesAreIgnored | pkg/providers/quota/quota.go:403-415 | every other create leaves the provider as it is |
| QuotaEffects.DeleteFreesQuota | pkg/providers/quota/quota.go:424-479 | the mirror image, minus the vCPUs, for an accepted delete with nothing pending and no deletion seen in the last 1500 s |
| QuotaEffects.OtherDeletesAreIgnored | pkg/providers/quota/quota.go:431-459 | deletes that are not accepted, repeat a recent one or meet a pending delete leave the ledger alone |
| QuotaEffects.RefreshDropsWhatItBeganWith | pkg/providers/quota/quota.go:198-267 | whatever happens during a refresh, publishing drops exactly the adjustments pending at its begin and unchanged since, and keeps the rest as they are |
| QuotaEffects.FailedRefreshLeavesNoTrace | pkg/providers/quota/quota.go:209-215 | a refresh that fails at once leaves everything but pruned tombstones as it was |
| QuotaEffects.ResetFailsOpen | pkg/providers/quota/quota.go:524-548 | a reset clears adjustments and tombstones, and every read then assumes quota |
| QuotaEffects.StaleCreatesAreIgnored | pkg/providers/quota/quota.go:397-407 | a create issued against a snapshot that was since replaced or reset is never recorded, in any run |
| QuotaEffects.PruneExactly | pkg/providers/quota/quota.go:497-507 | pruning drops exactly what was last seen over 1500 s ago, unless it ran less than 600 s ago |
| QuotaEffects.TombstonesBounded | pkg/providers/quota/quota.go:509-522 | no run remembers more than 50000 deletions |
| QuotaEffects.DeleteRemembers | pkg/providers/quota/quota.go:424-522 | an accepted delete is remembered as of now and forgets no other recent one, except, when 50000 are held, one that none of the rest is older than |
| NodeImageVersions.IsNewerVersion | pkg/providers/imagefamily/nodeimageversionsclient.go:96-120 | the loop decides at the first position where the numeric segments differ, or for the longer version; a segment that is no number stops it with false |
| NodeImageVersions.NewerTransitive | pkg/providers/imagefamily/nodeimageversionsclient.go:96-120 | transitive on all strings |
| NodeImageVersions.NewerIrreflexive | pkg/providers/imagefamily/nodeimageversionsclient.go:96-120 | no version is newer than itself |
| NodeImageVersions.NumericVersionsAreTotal | pkg/providers/imagefamily/nodeimageversionsclient.go:96-120 | numeric versions are unordered exactly when their segments are equal numbers |
| NodeImageVersions.NumericVersionsNegativelyTransitive | pkg/providers/imagefamily/nodeimageversionsclient.go:96-120 | on numeric versions being unordered is transitive, so the comparison is a strict weak order |
| NodeImageVersions.WeakOrderExactlyOnNumeric | pkg/providers/imagefamily/nodeimageversionsclient.go:96-120 | a version keeps the comparison with numeric versions a strict weak order if and only if it is numeric itself |
| NodeImageVersions.MalformedVersionsBreakTheWeakOrder | pkg/providers/imagefamily/nodeimageversionsclient.go:105-107 | an instance: 2 is newer than 1, and x is unordered with both |
| NodeImageVersions.MapKeyInjective | pkg/providers/imagefamily/nodeimageversionsclient.go:74-79 | for supported OS names the map key determines OS and SKU |
| NodeImageVersions.FilteredNodeImages | pkg/providers/imagefamily/nodeimageversionsclient.go:63-93 | every returned image is in the input, of one of the three supported OS names, and no image of its OS and SKU is newer; each supported OS and SKU of the input appears exactly once; earliest of equal versions |
| NodeImageVersions.PickIgnoresInputOrder | pkg/providers/imagefamily/nodeimageversionsclient.go:60-93 | shuffling the input never yields a newer or older pick, and with numeric versions the same version number |
| NodeImageVersions.Consider | pkg/providers/imagefamily/nodeimageversionsclient.go:66-85 | the loop body keeps each key's entry the latest so far |
| VersionNumbers.AtoiOfDecimal | pkg/providers/imagefamily/nodeimageversionsclient.go:102-103 | a number's decimal form reads back as that number, or not at all if it does not fit in 64 bits |
| VersionNumbers.AtoiOfNegative | pkg/providers/imagefamily/nodeimageversionsclient.go:102-103 | the same behind a minus sign |
| VersionNumbers.AtoiRejects | pkg/providers/imagefamily/nodeimageversionsclient.go:105-107 | anything but digits behind an optional sign is no number |
| VersionNumbers.NewerMeansAhead | pkg/providers/imagefamily/nodeimageversionsclient.go:96-120 | for lists of numbers written with dots, newer means exactly: a larger number at the first difference, or going on where the other ends |
| AlphanumericHash.GetAlphanumericHash | pkg/utils/utils.go:215-235 | fails exactly on non-positive lengths; otherwise each character, from the right, is the alphabet's entry for that base-36 digit of the hash |
| AlphanumericHash.RenderedDigit | pkg/utils/utils.go:225-234 | the character i places from the right is the alphabet's entry for the hash divided by 36^i, modulo 36 |
| AlphanumericHash.DecodeOfRender | pkg/utils/utils.go:225-234 | the string of length L decodes to the hash modulo 36^L |
| AlphanumericHash.InjectiveFromThirteen | pkg/utils/utils.go:209-212 | injective on 64-bit hashes exactly if the length is at least 13 |
| AlphanumericHash.LongerIsPadding | pkg/utils/utils.go:210-212 | longer strings are the 13-character one behind leading zeros |
| SubnetId.ParseOfPrint | pkg/utils/subnet_parser.go:45-83 | parsing a printed ID returns the slash-free components |
| SubnetId.AcceptsPrinted | pkg/utils/subnet_parser.go:64-83 | a string equal to a printed ID up to case is accepted with its own spelling of the components |
| SubnetId.ParserAcceptsExactly | pkg/utils/subnet_parser.go:51-83 | the parser accepts exactly the strings that print some slash-free components, case aside |
| SubnetId.AcceptsExactlyTheTemplate | pkg/utils/subnet_parser.go:64-83 | accepted are exactly eleven segments of which the seven fixed ones read as in the template, letter case aside |
| SubnetId.SplitOfPrint | pkg/utils/subnet_parser.go:45-48 | a printed ID has these eleven segments |
| SubnetId.ParseIsCaseInsensitive | pkg/utils/subnet_parser.go:51-63 | two accepted IDs are equal up to case exactly if their components are |

## Left out

- Interleaving of a reader with the two writes inside one offering mark: a mark writes both caches in one step here, although readers take no lock.
- RecommendationDetails.Clone: collects the copied limits in a list and makes the result slice from it, where the source fills the slice in place; the copy's contents and separation are the same.
- FindOldest: starts from some entry instead of using the empty string for "none yet"; instance keys are never empty.
- RecommendationFetch: no panics inside a flight and no cancellation of a leader's context; the request's 15-second timeout is one of the failing replies.
- Overflow of 64-bit vCPU sums and of the quota sequence number: integers are unbounded there. The 32-bit capacity sum and the 64-bit offerings sequence number are modelled with truncation.
- Non-ASCII letter case, and real clocks: time is an explicit non-decreasing number.
- Fetching of quota usages and category mappings, and the quota controller's staleness timer around them.
- NodeClass hash normalisation and the building of the placement request.
- Azure SDK clients, operator wiring, metrics, logging and events; instance type and image-family tables; the allocation strategy.
