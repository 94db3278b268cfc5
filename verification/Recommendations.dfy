/**
 Flattening ranked placement choices into recommendations, each (size, zone, capacity type)
 once, and the soundness of caching the outcome.
 */
module Recommendations {
  import opened TtlCache
  import opened StableSort
  import opened PlacementRanking

  datatype Recommendation = Recommendation(
    vmSize: string, zone: string, capacityType: string, score: int, id: string, count: int)

  datatype RecommendationKey = RecommendationKey(vmSize: string, zone: string, capacityType: string)

  datatype Error = InvalidChoice | InvalidSplit | UnsupportedPriority(text: string) | NoSizes | NoChoices

  datatype Result<+T> = Ok(value: T) | Err(error: Error)

  const ON_DEMAND := "on-demand"
  const SPOT := "spot"

  function KeyOf(r: Recommendation): RecommendationKey {
    RecommendationKey(r.vmSize, r.zone, r.capacityType)
  }

  function RecommendationFromSplit(id: string, choice: Choice, split: Option<Item>): Result<Recommendation> {
    if split.None? || split.value.name.None? || split.value.capacity.None? || split.value.priority.None? then Err(InvalidSplit)
    else if split.value.priority.value.Unsupported? then Err(UnsupportedPriority(split.value.priority.value.text))
    else
      var capacityType := if split.value.priority.value == Regular then ON_DEMAND else SPOT;
      Ok(Recommendation(split.value.name.value, FromPtr(split.value.zone, ""), capacityType,
                        FromPtr(choice.score, 0), id, split.value.capacity.value))
  }

  // ----- Specification: all splits in order, then the first of each key -----

  function FlattenSplits(id: string, choice: Choice, splits: seq<Option<Item>>): Result<seq<Recommendation>> {
    if splits == [] then Ok([])
    else
      match FlattenSplits(id, choice, splits[..|splits| - 1])
      case Err(e) => Err(e)
      case Ok(front) =>
        match RecommendationFromSplit(id, choice, splits[|splits| - 1])
        case Err(e) => Err(e)
        case Ok(r) => Ok(front + [r])
  }

  function FlattenChoice(id: string, choice: Choice): Result<seq<Recommendation>> {
    if choice.score.None? || choice.skuSplit.None? then Err(InvalidChoice)
    else FlattenSplits(id, choice, choice.skuSplit.value)
  }

  function Flatten(id: string, choices: seq<Choice>): Result<seq<Recommendation>> {
    if choices == [] then Ok([])
    else
      match Flatten(id, choices[..|choices| - 1])
      case Err(e) => Err(e)
      case Ok(front) =>
        match FlattenChoice(id, choices[|choices| - 1])
        case Err(e) => Err(e)
        case Ok(more) => Ok(front + more)
  }

  function Keys(s: seq<Recommendation>): set<RecommendationKey> {
    set i | 0 <= i < |s| :: KeyOf(s[i])
  }

  function FirstOfEachKey(s: seq<Recommendation>): seq<Recommendation> {
    if s == [] then []
    else
      var front, last := s[..|s| - 1], s[|s| - 1];
      FirstOfEachKey(front) + if KeyOf(last) in Keys(front) then [] else [last]
  }

  function Recommend(id: string, choices: seq<Choice>): Result<seq<Recommendation>> {
    match Flatten(id, choices)
    case Err(e) => Err(e)
    case Ok(all) =>
      if FirstOfEachKey(all) == [] then Err(NoSizes) else Ok(FirstOfEachKey(all))
  }

  // ----- The loop -----

  lemma {:induction false} SplitErrorPersists(id: string, choice: Choice, splits: seq<Option<Item>>, n: nat)
    requires n <= |splits| && FlattenSplits(id, choice, splits[..n]).Err?
    ensures FlattenSplits(id, choice, splits) == FlattenSplits(id, choice, splits[..n])
  {
    if n == |splits| {
      assert splits[..n] == splits;
    } else {
      assert splits[..|splits| - 1][..n] == splits[..n];
      SplitErrorPersists(id, choice, splits[..|splits| - 1], n);
    }
  }

  lemma {:induction false} ChoiceErrorPersists(id: string, choices: seq<Choice>, n: nat)
    requires n <= |choices| && Flatten(id, choices[..n]).Err?
    ensures Flatten(id, choices) == Flatten(id, choices[..n])
  {
    if n == |choices| {
      assert choices[..n] == choices;
    } else {
      assert choices[..|choices| - 1][..n] == choices[..n];
      ChoiceErrorPersists(id, choices[..|choices| - 1], n);
    }
  }

  lemma KeysStep(s: seq<Recommendation>, x: Recommendation)
    ensures Keys(s + [x]) == Keys(s) + {KeyOf(x)}
    ensures FirstOfEachKey(s + [x]) == FirstOfEachKey(s) + if KeyOf(x) in Keys(s) then [] else [x]
  {
    var t := s + [x];
    assert t[..|t| - 1] == s;
    assert forall i :: 0 <= i < |s| ==> t[i] == s[i];
    assert t[|s|] == x;
  }

  /** The inner loop: one choice's splits, added to what earlier choices gave. */
  method AddSplits(id: string, choice: Choice, splits: seq<Option<Item>>, seen0: set<RecommendationKey>,
                   result0: seq<Recommendation>, ghost before: seq<Recommendation>)
    returns (error: Option<Error>, seen: set<RecommendationKey>, result: seq<Recommendation>)
    requires seen0 == Keys(before) && result0 == FirstOfEachKey(before)
    ensures var mine := FlattenSplits(id, choice, splits);
      if mine.Err? then error == Some(mine.error)
      else error == None && seen == Keys(before + mine.value) && result == FirstOfEachKey(before + mine.value)
  {
    error, seen, result := None, seen0, result0;
    ghost var mine: seq<Recommendation> := [];
    assert before + mine == before;
    for j := 0 to |splits|
      invariant FlattenSplits(id, choice, splits[..j]) == Ok(mine)
      invariant seen == Keys(before + mine) && result == FirstOfEachKey(before + mine)
    {
      assert splits[..j + 1][..j] == splits[..j];
      var made := RecommendationFromSplit(id, choice, splits[j]);
      if made.Err? {
        SplitErrorPersists(id, choice, splits, j + 1);
        error := Some(made.error);
        return;
      }
      KeysStep(before + mine, made.value);
      assert before + mine + [made.value] == before + (mine + [made.value]);
      mine := mine + [made.value];
      if KeyOf(made.value) in seen {
        continue;
      }
      seen := seen + {KeyOf(made.value)};
      result := result + [made.value];
    }
    assert splits[..|splits|] == splits;
  }

  method RecommendationsFromChoices(id: string, choices: seq<Choice>) returns (r: Result<seq<Recommendation>>)
    ensures r == Recommend(id, choices)
    ensures r.Ok? ==> FirstOfEachTarget(id, choices, r.value)
  {
    var seen: set<RecommendationKey> := {};
    var result: seq<Recommendation> := [];
    ghost var all: seq<Recommendation> := [];
    for i := 0 to |choices|
      invariant Flatten(id, choices[..i]) == Ok(all)
      invariant seen == Keys(all) && result == FirstOfEachKey(all)
    {
      var choice := choices[i];
      assert choices[..i + 1][..i] == choices[..i];
      if choice.score.None? || choice.skuSplit.None? {
        ChoiceErrorPersists(id, choices, i + 1);
        return Err(InvalidChoice);
      }
      var error;
      error, seen, result := AddSplits(id, choice, choice.skuSplit.value, seen, result, all);
      if error.Some? {
        ChoiceErrorPersists(id, choices, i + 1);
        return Err(error.value);
      }
      all := all + FlattenChoice(id, choice).value;
    }
    assert choices[..|choices|] == choices;
    if |result| == 0 {
      return Err(NoSizes);
    }
    r := Ok(result);
    FlatteningTakesFirst(id, choices);
  }

  // ----- When it fails -----

  predicate ValidSplit(split: Option<Item>) {
    && split.Some? && split.value.name.Some? && split.value.capacity.Some?
    && split.value.priority.Some? && !split.value.priority.value.Unsupported?
  }

  predicate ValidChoice(c: Choice) {
    && c.score.Some? && c.skuSplit.Some?
    && forall i :: 0 <= i < |c.skuSplit.value| ==> ValidSplit(c.skuSplit.value[i])
  }

  lemma {:induction false} FlattenSplitsSucceeds(id: string, choice: Choice, splits: seq<Option<Item>>)
    ensures FlattenSplits(id, choice, splits).Ok? <==> forall i :: 0 <= i < |splits| ==> ValidSplit(splits[i])
    ensures FlattenSplits(id, choice, splits).Ok? ==> |FlattenSplits(id, choice, splits).value| == |splits|
  {
    if splits != [] {
      var front := splits[..|splits| - 1];
      FlattenSplitsSucceeds(id, choice, front);
      assert forall i :: 0 <= i < |front| ==> front[i] == splits[i];
      assert ValidSplit(splits[|splits| - 1]) <==> RecommendationFromSplit(id, choice, splits[|splits| - 1]).Ok?;
    }
  }

  lemma {:induction false} FlattenSucceeds(id: string, choices: seq<Choice>)
    ensures Flatten(id, choices).Ok? <==> forall c :: c in choices ==> ValidChoice(c)
    ensures Flatten(id, choices).Ok? ==>
      (Flatten(id, choices).value == [] <==> forall c :: c in choices ==> Splits(c) == [])
  {
    if choices != [] {
      var front, last := choices[..|choices| - 1], choices[|choices| - 1];
      FlattenSucceeds(id, front);
      assert forall c :: c in choices <==> c in front || c == last;
      if last.skuSplit.Some? {
        FlattenSplitsSucceeds(id, last, last.skuSplit.value);
      }
      assert ValidChoice(last) <==> FlattenChoice(id, last).Ok?;
      assert last in choices;
    }
  }

  /** Flattening fails exactly when some choice or split is invalid, or there is no split at all. */
  lemma RecommendFailsExactly(id: string, choices: seq<Choice>)
    ensures Recommend(id, choices).Ok? <==>
      (forall c :: c in choices ==> ValidChoice(c)) && (exists c :: c in choices && Splits(c) != [])
  {
    FlattenSucceeds(id, choices);
    if Flatten(id, choices).Ok? {
      FirstKeepsKeys(Flatten(id, choices).value);
    }
  }

  // ----- What it returns -----

  /** The split is of the recommendation's size, zone and capacity type. */
  predicate Matches(split: Option<Item>, r: Recommendation) {
    && split.Some? && split.value.name == Some(r.vmSize)
    && (split.value.zone == Some(r.zone) || (split.value.zone.None? && r.zone == ""))
    && (|| (split.value.priority == Some(Regular) && r.capacityType == "on-demand")
        || (split.value.priority == Some(Spot) && r.capacityType == "spot"))
  }

  predicate SameTarget(r: Recommendation, t: Recommendation) {
    r.vmSize == t.vmSize && r.zone == t.zone && r.capacityType == t.capacityType
  }

  /** Split `k` of choice `n`. */
  predicate IsSplit(choices: seq<Choice>, n: nat, k: nat) {
    n < |choices| && k < |Splits(choices[n])|
  }

  predicate MatchesAt(choices: seq<Choice>, n: nat, k: nat, r: Recommendation) {
    IsSplit(choices, n, k) && Matches(Splits(choices[n])[k], r)
  }

  /** Position `(m, l)` comes before `(n, k)`. */
  predicate Before(m: nat, l: nat, n: nat, k: nat) {
    m < n || (m == n && l < k)
  }

  /** The first split that matches. */
  ghost predicate FirstMatch(choices: seq<Choice>, n: nat, k: nat, r: Recommendation) {
    MatchesAt(choices, n, k, r) && forall m: nat, l: nat :: MatchesAt(choices, m, l, r) ==> !Before(m, l, n, k)
  }

  /** `r` tells the response's id, the split's capacity and the choice's score. */
  ghost predicate TakenFrom(id: string, choices: seq<Choice>, n: nat, k: nat, r: Recommendation) {
    && FirstMatch(choices, n, k, r)
    && r.id == id && Splits(choices[n])[k].value.capacity == Some(r.count) && choices[n].score == Some(r.score)
  }

  /** The first split of `r` comes before that of `t`. */
  ghost predicate TakenBefore(choices: seq<Choice>, r: Recommendation, t: Recommendation) {
    forall n: nat, k: nat, m: nat, l: nat :: FirstMatch(choices, n, k, r) && FirstMatch(choices, m, l, t) ==> Before(n, k, m, l)
  }

  /**
   Every split's size, zone and capacity type is recommended, none twice, each with the figures
   of its first split, in the order of those splits.
   */
  ghost predicate FirstOfEachTarget(id: string, choices: seq<Choice>, recs: seq<Recommendation>) {
    && recs != []
    && (forall i, j :: 0 <= i < j < |recs| ==> !SameTarget(recs[i], recs[j]) && TakenBefore(choices, recs[i], recs[j]))
    && (forall n: nat, k: nat :: IsSplit(choices, n, k) ==> exists r :: r in recs && MatchesAt(choices, n, k, r))
    && (forall r :: r in recs ==> exists n: nat, k: nat :: TakenFrom(id, choices, n, k, r))
  }

  lemma SplitMatches(id: string, c: Choice, split: Option<Item>, r: Recommendation)
    requires RecommendationFromSplit(id, c, split).Ok?
    ensures var made := RecommendationFromSplit(id, c, split).value;
      && (Matches(split, r) <==> KeyOf(made) == KeyOf(r))
      && made.id == id && split.value.capacity == Some(made.count)
      && (c.score.Some? ==> c.score == Some(made.score))
  {
  }

  /** Number of splits in the first `n` choices. */
  function Start(choices: seq<Choice>, n: nat): nat
    requires n <= |choices|
  {
    if n == 0 then 0 else Start(choices, n - 1) + |Splits(choices[n - 1])|
  }

  lemma {:induction false} StartOfPrefix(choices: seq<Choice>, n: nat, most: nat)
    requires n <= most <= |choices|
    ensures Start(choices[..most], n) == Start(choices, n)
  {
    if n > 0 {
      StartOfPrefix(choices, n - 1, most);
    }
  }

  lemma {:induction false} StartGrows(choices: seq<Choice>, m: nat, n: nat)
    requires m < n <= |choices|
    ensures Start(choices, m) + |Splits(choices[m])| <= Start(choices, n)
  {
    if m + 1 < n {
      StartGrows(choices, m, n - 1);
    }
  }

  lemma PositionsFollow(choices: seq<Choice>, m: nat, l: nat, n: nat, k: nat)
    requires IsSplit(choices, m, l) && IsSplit(choices, n, k)
    ensures Before(m, l, n, k) <==> Start(choices, m) + l < Start(choices, n) + k
  {
    if m < n {
      StartGrows(choices, m, n);
    } else if n < m {
      StartGrows(choices, n, m);
    }
  }

  lemma {:induction false} FlattenSplitsAt(id: string, choice: Choice, splits: seq<Option<Item>>, k: nat)
    requires FlattenSplits(id, choice, splits).Ok? && k < |splits|
    ensures var all := FlattenSplits(id, choice, splits).value;
      |all| == |splits| && RecommendationFromSplit(id, choice, splits[k]) == Ok(all[k])
  {
    FlattenSplitsSucceeds(id, choice, splits);
    FlattenSplitsSucceeds(id, choice, splits[..|splits| - 1]);
    if k < |splits| - 1 {
      FlattenSplitsAt(id, choice, splits[..|splits| - 1], k);
    }
  }

  /** The last choice's splits come behind those of the others. */
  lemma FlattenLast(id: string, choices: seq<Choice>)
    requires choices != [] && Flatten(id, choices).Ok?
    ensures var front, last := choices[..|choices| - 1], choices[|choices| - 1];
      && Flatten(id, front).Ok? && last.score.Some? && last.skuSplit.Some? && FlattenSplits(id, last, Splits(last)).Ok?
      && Flatten(id, choices).value == Flatten(id, front).value + FlattenSplits(id, last, Splits(last)).value
  {
  }

  lemma {:induction false} FlattenLength(id: string, choices: seq<Choice>)
    requires Flatten(id, choices).Ok?
    ensures |Flatten(id, choices).value| == Start(choices, |choices|)
  {
    if choices != [] {
      var front, last := choices[..|choices| - 1], choices[|choices| - 1];
      FlattenLast(id, choices);
      FlattenLength(id, front);
      FlattenSplitsSucceeds(id, last, Splits(last));
      StartOfPrefix(choices, |front|, |front|);
    }
  }

  /** Split `k` of choice `n` lands at its place in the flat list. */
  lemma {:induction false} FlattenAt(id: string, choices: seq<Choice>, n: nat, k: nat)
    requires Flatten(id, choices).Ok? && IsSplit(choices, n, k)
    ensures var all, p := Flatten(id, choices).value, Start(choices, n) + k;
      p < |all| && RecommendationFromSplit(id, choices[n], Splits(choices[n])[k]) == Ok(all[p])
    ensures choices[n].score.Some?
    decreases |choices|
  {
    var front, last := choices[..|choices| - 1], choices[|choices| - 1];
    FlattenLast(id, choices);
    FlattenLength(id, front);
    StartOfPrefix(choices, n, |front|);
    if n < |front| {
      FlattenAt(id, front, n, k);
    } else {
      FlattenSplitsAt(id, last, Splits(last), k);
    }
  }

  /** Every place of the flat list belongs to a split. */
  lemma {:induction false} Locate(choices: seq<Choice>, p: nat) returns (n: nat, k: nat)
    requires p < Start(choices, |choices|)
    ensures IsSplit(choices, n, k) && p == Start(choices, n) + k
    decreases |choices|
  {
    var front := choices[..|choices| - 1];
    StartOfPrefix(choices, |front|, |front|);
    if p < Start(choices, |front|) {
      n, k := Locate(front, p);
      StartOfPrefix(choices, n, |front|);
    } else {
      n, k := |front|, p - Start(choices, |front|);
    }
  }

  lemma {:induction false} FirstKeepsKeys(s: seq<Recommendation>)
    ensures Keys(FirstOfEachKey(s)) == Keys(s)
    ensures FirstOfEachKey(s) == [] <==> s == []
  {
    if s != [] {
      var front, last := s[..|s| - 1], s[|s| - 1];
      FirstKeepsKeys(front);
      KeysStep(front, last);
      KeysStep(FirstOfEachKey(front), last);
      assert s == front + [last];
      if KeyOf(last) in Keys(front) {
        assert FirstOfEachKey(s) == FirstOfEachKey(front);
        assert Keys(s) == Keys(front);
      }
    }
  }

  /** Place `p` is the first with its key. */
  predicate FirstAt(s: seq<Recommendation>, p: nat) {
    p < |s| && forall q :: 0 <= q < p ==> KeyOf(s[q]) != KeyOf(s[p])
  }

  /** A kept entry is the first of its key. */
  lemma {:induction false} FirstIsFirst(s: seq<Recommendation>, i: nat) returns (p: nat)
    requires i < |FirstOfEachKey(s)|
    ensures FirstAt(s, p) && s[p] == FirstOfEachKey(s)[i]
  {
    var front, last := s[..|s| - 1], s[|s| - 1];
    if i < |FirstOfEachKey(front)| {
      p := FirstIsFirst(front, i);
    } else {
      p := |s| - 1;
      forall q | 0 <= q < p ensures KeyOf(s[q]) != KeyOf(last) {
        assert front[q] == s[q];
        assert KeyOf(front[q]) in Keys(front);
      }
    }
  }

  /** Kept entries have different keys and keep their order. */
  lemma {:induction false} FirstKeepsOrder(s: seq<Recommendation>, i: nat, j: nat) returns (p: nat, q: nat)
    requires i < j < |FirstOfEachKey(s)|
    ensures p < q && FirstAt(s, p) && FirstAt(s, q)
    ensures s[p] == FirstOfEachKey(s)[i] && s[q] == FirstOfEachKey(s)[j]
  {
    var front := s[..|s| - 1];
    if j < |FirstOfEachKey(front)| {
      p, q := FirstKeepsOrder(front, i, j);
    } else {
      p := FirstIsFirst(front, i);
      q := FirstIsFirst(s, j);
      if q < |front| {
        assert KeyOf(front[q]) in Keys(front);
      }
    }
  }

  /** The first place of a key holds the first split that matches it. */
  lemma FirstPlaceIsFirstMatch(id: string, choices: seq<Choice>, p: nat) returns (n: nat, k: nat)
    requires Flatten(id, choices).Ok? && FirstAt(Flatten(id, choices).value, p)
    ensures IsSplit(choices, n, k) && p == Start(choices, n) + k && TakenFrom(id, choices, n, k, Flatten(id, choices).value[p])
  {
    var all := Flatten(id, choices).value;
    FlattenLength(id, choices);
    n, k := Locate(choices, p);
    FlattenAt(id, choices, n, k);
    SplitMatches(id, choices[n], Splits(choices[n])[k], all[p]);
    forall m: nat, l: nat | MatchesAt(choices, m, l, all[p]) ensures !Before(m, l, n, k) {
      FlattenAt(id, choices, m, l);
      SplitMatches(id, choices[m], Splits(choices[m])[l], all[p]);
      PositionsFollow(choices, m, l, n, k);
    }
  }

  /** Two first matches of one recommendation are the same split. */
  lemma FirstMatchUnique(choices: seq<Choice>, n: nat, k: nat, m: nat, l: nat, r: Recommendation)
    requires FirstMatch(choices, n, k, r) && FirstMatch(choices, m, l, r)
    ensures n == m && k == l
  {
    assert !Before(m, l, n, k) && !Before(n, k, m, l);
  }

  lemma KeptInOrder(id: string, choices: seq<Choice>, i: nat, j: nat, n: nat, k: nat, m: nat, l: nat)
    requires Flatten(id, choices).Ok?
    requires var kept := FirstOfEachKey(Flatten(id, choices).value);
      i < j < |kept| && FirstMatch(choices, n, k, kept[i]) && FirstMatch(choices, m, l, kept[j])
    ensures Before(n, k, m, l)
  {
    var all := Flatten(id, choices).value;
    var p, q := FirstKeepsOrder(all, i, j);
    var n', k' := FirstPlaceIsFirstMatch(id, choices, p);
    var m', l' := FirstPlaceIsFirstMatch(id, choices, q);
    FirstMatchUnique(choices, n, k, n', k', all[p]);
    FirstMatchUnique(choices, m, l, m', l', all[q]);
    PositionsFollow(choices, n, k, m, l);
  }

  lemma EverySplitRecommended(id: string, choices: seq<Choice>, n: nat, k: nat) returns (r: Recommendation)
    requires Flatten(id, choices).Ok? && IsSplit(choices, n, k)
    ensures r in FirstOfEachKey(Flatten(id, choices).value) && MatchesAt(choices, n, k, r)
  {
    var all := Flatten(id, choices).value;
    var kept := FirstOfEachKey(all);
    FlattenAt(id, choices, n, k);
    var p := Start(choices, n) + k;
    assert KeyOf(all[p]) in Keys(all);
    FirstKeepsKeys(all);
    var i :| 0 <= i < |kept| && KeyOf(kept[i]) == KeyOf(all[p]);
    r := kept[i];
    SplitMatches(id, choices[n], Splits(choices[n])[k], r);
  }

  /** Flattening returns the first of each size, zone and capacity type, on the fields. */
  lemma FlatteningTakesFirst(id: string, choices: seq<Choice>)
    requires Recommend(id, choices).Ok?
    ensures FirstOfEachTarget(id, choices, Recommend(id, choices).value)
  {
    var all := Flatten(id, choices).value;
    var recs := FirstOfEachKey(all);
    forall i, j | 0 <= i < j < |recs| ensures !SameTarget(recs[i], recs[j]) && TakenBefore(choices, recs[i], recs[j]) {
      var p, q := FirstKeepsOrder(all, i, j);
      assert KeyOf(all[p]) != KeyOf(all[q]);
      forall n: nat, k: nat, m: nat, l: nat | FirstMatch(choices, n, k, recs[i]) && FirstMatch(choices, m, l, recs[j])
        ensures Before(n, k, m, l)
      {
        KeptInOrder(id, choices, i, j, n, k, m, l);
      }
    }
    forall n: nat, k: nat | IsSplit(choices, n, k) ensures exists r :: r in recs && MatchesAt(choices, n, k, r) {
      var r := EverySplitRecommended(id, choices, n, k);
    }
    forall r | r in recs ensures exists n: nat, k: nat :: TakenFrom(id, choices, n, k, r) {
      var i :| 0 <= i < |recs| && recs[i] == r;
      var p := FirstIsFirst(all, i);
      var n, k := FirstPlaceIsFirstMatch(id, choices, p);
    }
  }

  // ----- The best of each -----

  /** Ranking and flattening of one response, as a fetch does it. */
  function RankedRecommendations(id: string, placementChoices: seq<Option<Choice>>, input: RankingInput): Result<seq<Recommendation>> {
    var choices := SortStable(NonNil(placementChoices), Better(input));
    if choices == [] then Err(NoChoices) else Recommend(id, choices)
  }

  /** A response ranks, for whatever input, exactly if all its choices are valid and one of them has a split. */
  lemma RankingFailsExactly(id: string, placementChoices: seq<Option<Choice>>, input: RankingInput)
    ensures RankedRecommendations(id, placementChoices, input).Ok? <==>
      && (forall c :: Some(c) in placementChoices ==> ValidChoice(c))
      && (exists c :: Some(c) in placementChoices && Splits(c) != [])
  {
    SortedMembers(placementChoices, input);
    RecommendFailsExactly(id, SortStable(NonNil(placementChoices), Better(input)));
  }

  /** The response has the choice, and the choice a split `k`. */
  predicate Offers(placementChoices: seq<Option<Choice>>, c: Choice, k: nat) {
    Some(c) in placementChoices && k < |Splits(c)|
  }

  predicate OfferedBy(placementChoices: seq<Option<Choice>>, c: Choice, k: nat, r: Recommendation) {
    Offers(placementChoices, c, k) && Matches(Splits(c)[k], r)
  }

  ghost predicate NoneOutranked(choices: seq<Choice>, input: RankingInput) {
    forall n, m :: 0 <= n <= m < |choices| ==> !Outranks(choices[m], choices[n], input)
  }

  /** `r` tells the response's id and the figures of a split of `c`, and no choice with a matching split outranks `c`. */
  ghost predicate BestSource(id: string, placementChoices: seq<Option<Choice>>, input: RankingInput, r: Recommendation, c: Choice, k: nat) {
    && OfferedBy(placementChoices, c, k, r)
    && r.id == id && Splits(c)[k].value.capacity == Some(r.count) && c.score == Some(r.score)
    && forall d, l: nat :: OfferedBy(placementChoices, d, l, r) ==> !Outranks(d, c, input)
  }

  /**
   A successful fetch recommends the size, zone and capacity type of every split of every
   choice, each once, with the figures of a split whose choice no choice with a matching split
   outranks, in order of non-increasing score.
   */
  lemma RecommendationsAreBest(id: string, placementChoices: seq<Option<Choice>>, input: RankingInput)
    requires RankedRecommendations(id, placementChoices, input).Ok?
    ensures var recs := RankedRecommendations(id, placementChoices, input).value;
      && (forall i, j :: 0 <= i < j < |recs| ==> !SameTarget(recs[i], recs[j]) && recs[i].score >= recs[j].score)
      && (forall c, k: nat :: Offers(placementChoices, c, k) ==>
            exists r :: r in recs && OfferedBy(placementChoices, c, k, r))
      && (forall r :: r in recs ==> exists c, k: nat :: BestSource(id, placementChoices, input, r, c, k))
  {
    var choices := SortStable(NonNil(placementChoices), Better(input));
    var recs := Recommend(id, choices).value;
    SortedMembers(placementChoices, input);
    FlatteningTakesFirst(id, choices);
    UnoutrankedByScore(choices, input);
    ScoresInOrder(id, choices, recs);
    EverySplitCovered(id, placementChoices, choices, recs);
    EverySourceBest(id, placementChoices, choices, input, recs);
  }

  lemma ScoresInOrder(id: string, choices: seq<Choice>, recs: seq<Recommendation>)
    requires FirstOfEachTarget(id, choices, recs) && NoLowerScoreFirst(choices)
    ensures forall i, j :: 0 <= i < j < |recs| ==> recs[i].score >= recs[j].score
  {
    forall i, j | 0 <= i < j < |recs| ensures recs[i].score >= recs[j].score {
      assert recs[i] in recs && recs[j] in recs && TakenBefore(choices, recs[i], recs[j]);
      var n: nat, k: nat :| TakenFrom(id, choices, n, k, recs[i]);
      var m: nat, l: nat :| TakenFrom(id, choices, m, l, recs[j]);
      ScoresFall(id, choices, recs[i], n, k, recs[j], m, l);
    }
  }

  lemma EverySplitCovered(id: string, placementChoices: seq<Option<Choice>>, choices: seq<Choice>, recs: seq<Recommendation>)
    requires FirstOfEachTarget(id, choices, recs) && forall c :: c in choices <==> Some(c) in placementChoices
    ensures forall c, k: nat :: Offers(placementChoices, c, k) ==> exists r :: r in recs && OfferedBy(placementChoices, c, k, r)
  {
    forall c, k: nat | Offers(placementChoices, c, k) ensures exists r :: r in recs && OfferedBy(placementChoices, c, k, r) {
      var n: nat :| n < |choices| && choices[n] == c;
      assert IsSplit(choices, n, k);
      var r :| r in recs && MatchesAt(choices, n, k, r);
      assert OfferedBy(placementChoices, c, k, r);
    }
  }

  lemma EverySourceBest(id: string, placementChoices: seq<Option<Choice>>, choices: seq<Choice>, input: RankingInput, recs: seq<Recommendation>)
    requires FirstOfEachTarget(id, choices, recs) && NoneOutranked(choices, input)
    requires forall c :: c in choices <==> Some(c) in placementChoices
    ensures forall r :: r in recs ==> exists c, k: nat :: BestSource(id, placementChoices, input, r, c, k)
  {
    forall r | r in recs ensures exists c, k: nat :: BestSource(id, placementChoices, input, r, c, k) {
      var n: nat, k: nat :| TakenFrom(id, choices, n, k, r);
      FirstMatchIsBest(id, placementChoices, choices, input, n, k, r);
    }
  }

  lemma SameMembers(placementChoices: seq<Option<Choice>>, choices: seq<Choice>, c: Choice)
    requires multiset(choices) == multiset(NonNil(placementChoices))
    ensures c in choices <==> Some(c) in placementChoices
  {
    NonNilCounts(placementChoices, c);
    assert c in choices <==> c in multiset(choices);
    assert Some(c) in placementChoices <==> Some(c) in multiset(placementChoices);
  }

  lemma SortedIsUnoutranked(choices: seq<Choice>, input: RankingInput)
    requires Sorted(choices, Better(input)) && StrictWeakOrder(Better(input))
    ensures NoneOutranked(choices, input)
  {
    forall n, m | 0 <= n <= m < |choices| ensures !Outranks(choices[m], choices[n], input) {
      BetterMeansOutranks(choices[m], choices[n], input);
    }
  }

  lemma SortedMembers(placementChoices: seq<Option<Choice>>, input: RankingInput)
    ensures var choices := SortStable(NonNil(placementChoices), Better(input));
      (forall c :: c in choices <==> Some(c) in placementChoices) && NoneOutranked(choices, input)
  {
    BetterIsStrictWeakOrder(input);
    SortContract(NonNil(placementChoices), Better(input));
    var choices := SortStable(NonNil(placementChoices), Better(input));
    SortedIsUnoutranked(choices, input);
    forall c ensures c in choices <==> Some(c) in placementChoices {
      SameMembers(placementChoices, choices, c);
    }
  }

  predicate NoLowerScoreFirst(choices: seq<Choice>) {
    forall n, m :: 0 <= n <= m < |choices| && choices[n].score.Some? && choices[m].score.Some? ==>
      choices[n].score.value >= choices[m].score.value
  }

  lemma UnoutrankedByScore(choices: seq<Choice>, input: RankingInput)
    requires NoneOutranked(choices, input)
    ensures NoLowerScoreFirst(choices)
  {
  }

  lemma ScoresFall(id: string, choices: seq<Choice>, r: Recommendation, n: nat, k: nat, t: Recommendation, m: nat, l: nat)
    requires TakenFrom(id, choices, n, k, r) && TakenFrom(id, choices, m, l, t)
    requires TakenBefore(choices, r, t) && NoLowerScoreFirst(choices)
    ensures r.score >= t.score
  {
    assert Before(n, k, m, l);
  }

  lemma FirstMatchIsBest(id: string, placementChoices: seq<Option<Choice>>, choices: seq<Choice>, input: RankingInput, n: nat, k: nat, r: Recommendation)
    requires TakenFrom(id, choices, n, k, r)
    requires forall c :: c in choices <==> Some(c) in placementChoices
    requires NoneOutranked(choices, input)
    ensures BestSource(id, placementChoices, input, r, choices[n], k)
  {
    forall d, l: nat | OfferedBy(placementChoices, d, l, r) ensures !Outranks(d, choices[n], input) {
      var m: nat :| m < |choices| && choices[m] == d;
      assert MatchesAt(choices, m, l, r);
      assert !Before(m, l, n, k);
    }
  }
}
