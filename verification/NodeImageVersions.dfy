/**
 Picking the latest node image per OS and SKU. The comparison of dotted versions is a strict
 partial order on all strings, malformed ones included; on numeric versions it is the
 lexicographic total order of their segments.
 */
module NodeImageVersions {
  import opened TtlCache
  import opened Text

  // ----- Versions -----

  predicate IsDigit(c: char) {
    '0' <= c <= '9'
  }

  predicate AllDigits(s: string) {
    forall i :: 0 <= i < |s| ==> IsDigit(s[i])
  }

  function DigitsValue(s: string): int
    requires AllDigits(s)
  {
    if s == "" then 0 else 10 * DigitsValue(s[..|s| - 1]) + (s[|s| - 1] as int - '0' as int)
  }

  /** `strconv.Atoi`: an optional sign, at least one digit, and a 64-bit result. */
  function Atoi(s: string): Option<int> {
    var signed := s != "" && (s[0] == '-' || s[0] == '+');
    var digits := if signed then s[1..] else s;
    if digits == "" || !AllDigits(digits) then None
    else
      var n := DigitsValue(digits);
      var v := if signed && s[0] == '-' then -n else n;
      if -0x8000_0000_0000_0000 <= v < 0x8000_0000_0000_0000 then Some(v) else None
  }

  /** Segments of a version, `None` where one is not a number. */
  function Segments(version: string): seq<Option<int>> {
    AtoiAll(Split(version, '.'))
  }

  function AtoiAll(parts: seq<string>): seq<Option<int>> {
    seq(|parts|, i requires 0 <= i < |parts| => Atoi(parts[i]))
  }

  /** The first `n` segments are numbers and equal. */
  predicate AgreeUpTo(a: seq<Option<int>>, b: seq<Option<int>>, n: nat) {
    n <= |a| && n <= |b| && forall i :: 0 <= i < n ==> a[i].Some? && a[i] == b[i]
  }

  /** Position `n` decides for `a`: a larger number there, or `b` has run out and `a` has not. */
  predicate DecidedAt(a: seq<Option<int>>, b: seq<Option<int>>, n: nat) {
    && AgreeUpTo(a, b, n) && n < |a|
    && (n == |b| || (n < |b| && a[n].Some? && b[n].Some? && a[n].value > b[n].value))
  }

  ghost predicate Precedes(a: seq<Option<int>>, b: seq<Option<int>>) {
    exists n: nat :: DecidedAt(a, b, n)
  }

  ghost predicate Newer(version1: string, version2: string) {
    Precedes(Segments(version1), Segments(version2))
  }

  /** A position that neither agrees nor decides for `a` settles the matter. */
  lemma SettledAgainst(a: seq<Option<int>>, b: seq<Option<int>>, i: nat)
    requires AgreeUpTo(a, b, i) && i < |a| && i < |b|
    requires a[i].Some? && b[i].Some? ==> a[i].value < b[i].value
    ensures !Precedes(a, b)
  {
  }

  method IsNewerVersion(version1: string, version2: string) returns (newer: bool)
    ensures newer == Newer(version1, version2)
  {
    var v1Segments, v2Segments := Split(version1, '.'), Split(version2, '.');
    ghost var a, b := Segments(version1), Segments(version2);
    var i := 0;
    while i < |v1Segments| && i < |v2Segments|
      invariant AgreeUpTo(a, b, i)
    {
      var v1Segment, v2Segment := Atoi(v1Segments[i]), Atoi(v2Segments[i]);
      assert v1Segment == a[i] && v2Segment == b[i];
      if v1Segment.None? || v2Segment.None? {
        SettledAgainst(a, b, i);
        return false;
      }
      if v1Segment.value > v2Segment.value {
        assert DecidedAt(a, b, i);
        return true;
      } else if v1Segment.value < v2Segment.value {
        SettledAgainst(a, b, i);
        return false;
      }
      i := i + 1;
    }
    newer := |v1Segments| > |v2Segments|;
    assert newer ==> DecidedAt(a, b, i);
  }

  lemma PrecedesIrreflexive(a: seq<Option<int>>)
    ensures !Precedes(a, a)
  {
  }

  lemma NewerIrreflexive(v: string)
    ensures !Newer(v, v)
  {
  }

  lemma PrecedesTransitive(a: seq<Option<int>>, b: seq<Option<int>>, c: seq<Option<int>>)
    requires Precedes(a, b) && Precedes(b, c)
    ensures Precedes(a, c)
  {
    var n: nat :| DecidedAt(a, b, n);
    var m: nat :| DecidedAt(b, c, m);
    assert DecidedAt(a, c, if n <= m then n else m);
  }

  /** Transitive on every three strings, numeric or not. */
  lemma NewerTransitive(u: string, v: string, w: string)
    requires Newer(u, v) && Newer(v, w)
    ensures Newer(u, w)
  {
    PrecedesTransitive(Segments(u), Segments(v), Segments(w));
  }

  predicate Numeric(version: string) {
    forall i :: 0 <= i < |Segments(version)| ==> Segments(version)[i].Some?
  }

  lemma {:induction false} FirstDifference(a: seq<Option<int>>, b: seq<Option<int>>, n: nat)
    requires AgreeUpTo(a, b, n)
    requires (forall i :: 0 <= i < |a| ==> a[i].Some?) && (forall i :: 0 <= i < |b| ==> b[i].Some?)
    ensures a == b || (exists k: nat :: DecidedAt(a, b, k)) || (exists k: nat :: DecidedAt(b, a, k))
    decreases |a| - n
  {
    if n == |a| || n == |b| {
      if n < |a| {
        assert DecidedAt(a, b, n);
      } else if n < |b| {
        assert DecidedAt(b, a, n);
      }
    } else if a[n].value > b[n].value {
      assert DecidedAt(a, b, n);
    } else if a[n].value < b[n].value {
      assert DecidedAt(b, a, n);
    } else {
      FirstDifference(a, b, n + 1);
    }
  }

  /** On numeric versions, neither being newer means the segments are equal numbers. */
  lemma NumericVersionsAreTotal(u: string, v: string)
    requires Numeric(u) && Numeric(v)
    ensures Segments(u) == Segments(v) <==> !Newer(u, v) && !Newer(v, u)
  {
    FirstDifference(Segments(u), Segments(v), 0);
  }

  /** Hence the comparison is a strict weak order there. */
  lemma NumericVersionsNegativelyTransitive(u: string, v: string, w: string)
    requires Numeric(u) && Numeric(v) && Numeric(w)
    requires !Newer(u, v) && !Newer(v, w)
    ensures !Newer(u, w)
  {
    NumericVersionsAreTotal(u, v);
    NumericVersionsAreTotal(v, w);
    if Newer(u, w) {
      if Newer(v, u) {
        NewerTransitive(v, u, w);
      } else if Newer(w, v) {
        NewerTransitive(u, w, v);
      }
    }
  }

  lemma SingleSegment(s: string)
    requires Free(s, '.')
    ensures Segments(s) == [Atoi(s)]
  {
    SplitOfJoin([s], '.');
    assert Join([s], '.') == s;
  }

  /** Adding the version to the numeric ones leaves being unordered transitive through it. */
  ghost predicate KeepsWeakOrder(v: string) {
    forall u, w :: Numeric(u) && Numeric(w) && !Newer(u, v) && !Newer(v, w) ==> !Newer(u, w)
  }

  /** The version cut before segment `k`, with a last segment of its own. */
  function CutAt(v: string, k: nat, last: string): string
    requires k < |Split(v, '.')|
  {
    Join(Split(v, '.')[..k] + [last], '.')
  }

  lemma CutSegments(v: string, k: nat, last: string)
    requires k < |Split(v, '.')| && Free(last, '.')
    ensures Segments(CutAt(v, k, last)) == Segments(v)[..k] + [Atoi(last)]
  {
    SplitOfJoin(Split(v, '.')[..k] + [last], '.');
    AtoiAllCut(Split(v, '.'), k, last);
  }

  lemma AtoiAllCut(parts: seq<string>, k: nat, last: string)
    requires k <= |parts|
    ensures AtoiAll(parts[..k] + [last]) == AtoiAll(parts)[..k] + [Atoi(last)]
  {
  }

  /** The first segment that is no number. */
  lemma {:induction false} FirstBadSegment(a: seq<Option<int>>, n: nat) returns (k: nat)
    requires n < |a| && a[n].None?
    ensures k < |a| && a[k].None? && forall i :: 0 <= i < k ==> a[i].Some?
    decreases n
  {
    if i :| 0 <= i < n && a[i].None? {
      k := FirstBadSegment(a, i);
    } else {
      k := n;
    }
  }

  /** Replacing the bad segment by a number gives a numeric version the malformed one is not ordered with. */
  lemma CutIsUnordered(v: string, k: nat, digit: string, n: int)
    requires k < |Segments(v)| && Segments(v)[k].None? && forall i :: 0 <= i < k ==> Segments(v)[i].Some?
    requires Free(digit, '.') && Atoi(digit) == Some(n)
    ensures Segments(CutAt(v, k, digit)) == Segments(v)[..k] + [Some(n)]
    ensures Numeric(CutAt(v, k, digit)) && !Newer(CutAt(v, k, digit), v) && !Newer(v, CutAt(v, k, digit))
  {
    CutSegments(v, k, digit);
    var a, b := Segments(CutAt(v, k, digit)), Segments(v);
    assert AgreeUpTo(a, b, k) && AgreeUpTo(b, a, k);
    SettledAgainst(a, b, k);
    SettledAgainst(b, a, k);
  }

  lemma SmallNumbers()
    ensures Atoi("1") == Some(1) && Atoi("2") == Some(2)
  {
    assert DigitsValue("1") == 1 && DigitsValue("2") == 2;
  }

  lemma MalformedBreaks(v: string)
    requires !Numeric(v)
    ensures !KeepsWeakOrder(v)
  {
    var n: nat :| n < |Segments(v)| && Segments(v)[n].None?;
    var k := FirstBadSegment(Segments(v), n);
    SmallNumbers();
    CutIsUnordered(v, k, "2", 2);
    CutIsUnordered(v, k, "1", 1);
    var u, w := CutAt(v, k, "2"), CutAt(v, k, "1");
    assert DecidedAt(Segments(u), Segments(w), k);
    assert Newer(u, w);
  }

  /** The comparison is a strict weak order on numeric versions, and every other version breaks it. */
  lemma WeakOrderExactlyOnNumeric(v: string)
    ensures KeepsWeakOrder(v) <==> Numeric(v)
  {
    if Numeric(v) {
      forall u, w | Numeric(u) && Numeric(w) && !Newer(u, v) && !Newer(v, w) ensures !Newer(u, w) {
        NumericVersionsNegativelyTransitive(u, v, w);
      }
    } else {
      MalformedBreaks(v);
    }
  }

  /** For instance, 2 beats 1, yet neither compares with x. */
  lemma MalformedVersionsBreakTheWeakOrder()
    ensures !Newer("1", "x") && !Newer("x", "1") && !Newer("2", "x") && !Newer("x", "2") && Newer("2", "1")
  {
    SingleSegment("1");
    SingleSegment("2");
    SingleSegment("x");
    SmallNumbers();
    assert !AllDigits("x") by {
      assert !IsDigit("x"[0]);
    }
    assert Segments("1") == [Some(1)] && Segments("2") == [Some(2)] && Segments("x") == [None];
    assert DecidedAt(Segments("2"), Segments("1"), 0);
  }

  // ----- Filtering -----

  const UBUNTU := "AKSUbuntu"
  const AZURE_LINUX := "AKSAzureLinux"
  const WINDOWS := "AKSWindows"

  datatype Image = Image(os: Option<string>, sku: Option<string>, version: Option<string>)

  function Str(p: Option<string>): string {
    if p.Some? then p.value else ""
  }

  predicate Supported(image: Image) {
    Str(image.os) == UBUNTU || Str(image.os) == AZURE_LINUX || Str(image.os) == WINDOWS
  }

  function MapKey(image: Image): string {
    Str(image.os) + "-" + Str(image.sku)
  }

  predicate SameOsAndSku(a: Image, b: Image) {
    Str(a.os) == Str(b.os) && Str(a.sku) == Str(b.sku)
  }

  /** No supported OS name contains the separator, so the map key tells OS and SKU apart. */
  lemma MapKeyInjective(a: Image, b: Image)
    requires Supported(a) && Supported(b)
    ensures MapKey(a) == MapKey(b) <==> SameOsAndSku(a, b)
  {
    if MapKey(a) == MapKey(b) {
      var k, x, y := MapKey(a), Str(a.os), Str(b.os);
      assert '-' !in x && '-' !in y;
      assert x == k[..|x|] && y == k[..|y|];
      assert forall i :: 0 <= i < |x| || 0 <= i < |y| ==> k[i] != '-';
      assert k[|x|] == '-' && k[|y|] == '-';
      assert Str(a.sku) == k[|x| + 1..] && Str(b.sku) == k[|y| + 1..];
    }
  }

  /** Image `j` exists for the same OS and SKU as image `m`. */
  predicate Rivals(images: seq<Option<Image>>, j: nat, m: nat)
    requires j < |images| && m < |images|
  {
    images[j].Some? && images[m].Some? && SameOsAndSku(images[j].value, images[m].value)
  }

  lemma RivalsShareKey(images: seq<Option<Image>>, j: nat, m: nat)
    requires j < |images| && m < |images|
    ensures Rivals(images, j, m) ==> MapKey(images[j].value) == MapKey(images[m].value)
  {
  }

  /** The segments of every image's version, computed once. */
  function AllSegments(images: seq<Option<Image>>): seq<seq<Option<int>>> {
    seq(|images|, i requires 0 <= i < |images| => if images[i].Some? then Segments(Str(images[i].value.version)) else [])
  }

  /** Image `m` is the pick for its OS and SKU among the first `n`: unbeaten, and the earliest of equal versions. */
  ghost predicate Latest(images: seq<Option<Image>>, versions: seq<seq<Option<int>>>, n: nat, m: nat) {
    && m < n <= |images| == |versions| && images[m].Some? && Supported(images[m].value)
    && (forall j :: 0 <= j < n && Rivals(images, j, m) ==> !Precedes(versions[j], versions[m]))
    && (forall j :: 0 <= j < m && Rivals(images, j, m) ==> versions[j] != versions[m])
  }

  ghost predicate Picked(images: seq<Option<Image>>, r: Image) {
    exists m: nat :: Latest(images, AllSegments(images), |images|, m) && images[m].value == r
  }

  lemma LatestStays(images: seq<Option<Image>>, versions: seq<seq<Option<int>>>, n: nat, m: nat)
    requires n < |images| && Latest(images, versions, n, m)
    requires Rivals(images, n, m) ==> !Precedes(versions[n], versions[m])
    ensures Latest(images, versions, n + 1, m)
  {
  }

  lemma LatestMoves(images: seq<Option<Image>>, versions: seq<seq<Option<int>>>, n: nat, m: nat)
    requires n < |images| && Latest(images, versions, n, m)
    requires Rivals(images, n, m) && Precedes(versions[n], versions[m])
    ensures Latest(images, versions, n + 1, n)
  {
    PrecedesIrreflexive(versions[n]);
    forall j | 0 <= j < n && Rivals(images, j, n)
      ensures !Precedes(versions[j], versions[n]) && versions[j] != versions[n]
    {
      assert Rivals(images, j, m);
      if Precedes(versions[j], versions[n]) {
        PrecedesTransitive(versions[j], versions[n], versions[m]);
      }
    }
  }

  /** A map entry: the pick at position `m` under its own key. */
  ghost predicate Entry(images: seq<Option<Image>>, versions: seq<seq<Option<int>>>, n: nat, key: string, image: Image, m: nat) {
    Latest(images, versions, n, m) && images[m].value == image && MapKey(image) == key
  }

  /** The map after `n` images, with the position each entry came from. */
  ghost predicate Progress(images: seq<Option<Image>>, versions: seq<seq<Option<int>>>, n: nat, latest: map<string, Image>, at: map<string, nat>) {
    && n <= |images| == |versions| && latest.Keys == at.Keys
    && (forall key :: key in at ==> Entry(images, versions, n, key, latest[key], at[key]))
    && (forall j :: 0 <= j < n && images[j].Some? && Supported(images[j].value) ==> MapKey(images[j].value) in latest)
  }

  lemma ProgressSkip(images: seq<Option<Image>>, versions: seq<seq<Option<int>>>, n: nat, latest: map<string, Image>, at: map<string, nat>)
    requires n < |images| && Progress(images, versions, n, latest, at)
    requires images[n].None? || !Supported(images[n].value)
    ensures Progress(images, versions, n + 1, latest, at)
  {
    forall key | key in at ensures Entry(images, versions, n + 1, key, latest[key], at[key]) {
      LatestStays(images, versions, n, at[key]);
    }
  }

  lemma ProgressKeep(images: seq<Option<Image>>, versions: seq<seq<Option<int>>>, n: nat, latest: map<string, Image>, at: map<string, nat>)
    requires n < |images| && Progress(images, versions, n, latest, at)
    requires images[n].Some? && Supported(images[n].value)
    requires var key := MapKey(images[n].value);
      key in latest && !Precedes(versions[n], versions[at[key]])
    ensures Progress(images, versions, n + 1, latest, at)
  {
    forall key | key in at ensures Entry(images, versions, n + 1, key, latest[key], at[key]) {
      RivalsShareKey(images, n, at[key]);
      LatestStays(images, versions, n, at[key]);
    }
  }

  lemma TakenIsLatest(images: seq<Option<Image>>, versions: seq<seq<Option<int>>>, n: nat, latest: map<string, Image>, at: map<string, nat>)
    requires n < |images| && Progress(images, versions, n, latest, at)
    requires images[n].Some? && Supported(images[n].value)
    requires var key := MapKey(images[n].value);
      key in latest ==> Precedes(versions[n], versions[at[key]])
    ensures Latest(images, versions, n + 1, n)
  {
    var image := images[n].value;
    var key := MapKey(image);
    if key in latest {
      MapKeyInjective(image, latest[key]);
      LatestMoves(images, versions, n, at[key]);
    } else {
      PrecedesIrreflexive(versions[n]);
      assert forall j :: 0 <= j < n && images[j].Some? && SameOsAndSku(images[j].value, image) ==> MapKey(images[j].value) == key;
    }
  }

  lemma ProgressTake(images: seq<Option<Image>>, versions: seq<seq<Option<int>>>, n: nat, latest: map<string, Image>, at: map<string, nat>)
    requires n < |images| && Progress(images, versions, n, latest, at)
    requires images[n].Some? && Supported(images[n].value)
    requires var key := MapKey(images[n].value);
      key in latest ==> Precedes(versions[n], versions[at[key]])
    ensures var key := MapKey(images[n].value);
      Progress(images, versions, n + 1, latest[key := images[n].value], at[key := n])
  {
    var image := images[n].value;
    var key := MapKey(image);
    TakenIsLatest(images, versions, n, latest, at);
    var latest', at' := latest[key := image], at[key := n];
    forall k | k in at' ensures Entry(images, versions, n + 1, k, latest'[k], at'[k]) {
      if k != key {
        RivalsShareKey(images, n, at[k]);
        LatestStays(images, versions, n, at[k]);
      }
    }
  }

  /** The loop body on a supported image, whichever way the comparison went. */
  lemma ProgressStep(images: seq<Option<Image>>, n: nat, latest: map<string, Image>, at: map<string, nat>, take: bool)
    requires n < |images| && Progress(images, AllSegments(images), n, latest, at)
    requires images[n].Some? && Supported(images[n].value)
    requires var image := images[n].value;
      take <==> (MapKey(image) in latest ==> Newer(Str(image.version), Str(latest[MapKey(image)].version)))
    ensures var key := MapKey(images[n].value);
      if take then Progress(images, AllSegments(images), n + 1, latest[key := images[n].value], at[key := n])
      else Progress(images, AllSegments(images), n + 1, latest, at)
  {
    var versions, key := AllSegments(images), MapKey(images[n].value);
    if key in latest {
      assert Entry(images, versions, n, key, latest[key], at[key]);
      assert versions[at[key]] == Segments(Str(latest[key].version));
    }
    if take {
      ProgressTake(images, versions, n, latest, at);
    } else {
      ProgressKeep(images, versions, n, latest, at);
    }
  }

  ghost predicate Collected(latest: map<string, Image>, values: seq<Image>) {
    forall r :: r in values <==> exists key :: key in latest && latest[key] == r
  }

  lemma KeysOfProgress(images: seq<Option<Image>>, latest: map<string, Image>, at: map<string, nat>)
    requires Progress(images, AllSegments(images), |images|, latest, at)
    ensures forall key :: key in latest ==> MapKey(latest[key]) == key
  {
    assert forall key :: key in latest ==> Entry(images, AllSegments(images), |images|, key, latest[key], at[key]);
  }

  lemma CollectedIsPicked(images: seq<Option<Image>>, latest: map<string, Image>, at: map<string, nat>, values: seq<Image>)
    requires Progress(images, AllSegments(images), |images|, latest, at) && Collected(latest, values)
    ensures forall r :: r in values ==> Picked(images, r) && IsLatest(images, r)
  {
    forall r | r in values ensures Picked(images, r) && IsLatest(images, r) {
      var key :| key in latest && latest[key] == r;
      assert Entry(images, AllSegments(images), |images|, key, r, at[key]);
      PickIsLatest(images, r);
    }
  }

  lemma CollectedIsComplete(images: seq<Option<Image>>, latest: map<string, Image>, at: map<string, nat>, values: seq<Image>)
    requires Progress(images, AllSegments(images), |images|, latest, at) && Collected(latest, values)
    ensures EveryKindIn(images, values)
  {
    forall j | 0 <= j < |images| && images[j].Some? && Supported(images[j].value)
      ensures exists r :: r in values && SameOsAndSku(r, images[j].value)
    {
      var key := MapKey(images[j].value);
      assert Entry(images, AllSegments(images), |images|, key, latest[key], at[key]);
      MapKeyInjective(latest[key], images[j].value);
      assert latest[key] in values;
    }
  }

  lemma CollectedIsDistinct(values: seq<Image>)
    requires forall i, j :: 0 <= i < j < |values| ==> MapKey(values[i]) != MapKey(values[j])
    ensures forall i, j :: 0 <= i < j < |values| ==> !SameOsAndSku(values[i], values[j])
  {
    forall i, j | 0 <= i < j < |values| ensures !SameOsAndSku(values[i], values[j]) {
      assert MapKey(values[i]) != MapKey(values[j]);
    }
  }

  /** The body of the first loop: image `n` is skipped, or replaces what its key has unless that is as new. */
  method Consider(images: seq<Option<Image>>, n: nat, latest0: map<string, Image>, ghost at0: map<string, nat>)
    returns (latest: map<string, Image>, ghost at: map<string, nat>)
    requires n < |images| && Progress(images, AllSegments(images), n, latest0, at0)
    ensures Progress(images, AllSegments(images), n + 1, latest, at)
  {
    latest, at := latest0, at0;
    if images[n].None? || !Supported(images[n].value) {
      ProgressSkip(images, AllSegments(images), n, latest, at);
      return;
    }
    var image := images[n].value;
    var key := MapKey(image);
    var take := key !in latest;
    if key in latest {
      take := IsNewerVersion(Str(image.version), Str(latest[key].version));
    }
    ProgressStep(images, n, latest, at, take);
    if take {
      latest, at := latest[key := image], at[key := n];
    }
  }

  /** The first loop: the latest image under each key. */
  method LatestImages(images: seq<Option<Image>>) returns (latest: map<string, Image>, ghost at: map<string, nat>)
    ensures Progress(images, AllSegments(images), |images|, latest, at)
  {
    latest, at := map[], map[];
    for n := 0 to |images|
      invariant Progress(images, AllSegments(images), n, latest, at)
    {
      latest, at := Consider(images, n, latest, at);
    }
  }

  /** The second loop: the map's values in whatever order it iterates. */
  method Collect(latest: map<string, Image>) returns (values: seq<Image>)
    requires forall key :: key in latest ==> MapKey(latest[key]) == key
    ensures Collected(latest, values)
    ensures forall i, j :: 0 <= i < j < |values| ==> MapKey(values[i]) != MapKey(values[j])
  {
    values := [];
    var todo := latest.Keys;
    while todo != {}
      invariant todo <= latest.Keys
      invariant forall r :: r in values <==> exists key :: key in latest && key !in todo && latest[key] == r
      invariant forall i, j :: 0 <= i < j < |values| ==> MapKey(values[i]) != MapKey(values[j])
    {
      var key :| key in todo;
      assert forall i :: 0 <= i < |values| ==> values[i] in values;
      values, todo := values + [latest[key]], todo - {key};
    }
  }

  lemma PickIsUnbeaten(images: seq<Option<Image>>, r: Image, x: Image)
    requires Picked(images, r) && Some(x) in images && SameOsAndSku(x, r)
    ensures !Newer(Str(x.version), Str(r.version))
  {
    var m: nat :| Latest(images, AllSegments(images), |images|, m) && images[m].value == r;
    var j :| 0 <= j < |images| && images[j] == Some(x);
    assert Rivals(images, j, m);
  }

  lemma PickIsMember(images: seq<Option<Image>>, r: Image)
    requires Picked(images, r)
    ensures Some(r) in images
  {
    var m: nat :| Latest(images, AllSegments(images), |images|, m) && images[m].value == r;
    assert images[m] == Some(r);
  }

  /** `r` is an image of the input, of a supported OS, and no image of its OS and SKU is newer. */
  ghost predicate IsLatest(images: seq<Option<Image>>, r: Image) {
    && Some(r) in images && Str(r.os) in ["AKSUbuntu", "AKSAzureLinux", "AKSWindows"]
    && forall x :: Some(x) in images && SameOsAndSku(x, r) ==> !Newer(Str(x.version), Str(r.version))
  }

  lemma PickIsLatest(images: seq<Option<Image>>, r: Image)
    requires Picked(images, r)
    ensures IsLatest(images, r)
  {
    PickIsMember(images, r);
    forall x | Some(x) in images && SameOsAndSku(x, r) ensures !Newer(Str(x.version), Str(r.version)) {
      PickIsUnbeaten(images, r, x);
    }
  }

  ghost predicate EveryKindIn(images: seq<Option<Image>>, filtered: seq<Image>) {
    forall j :: 0 <= j < |images| && images[j].Some? && Str(images[j].value.os) in ["AKSUbuntu", "AKSAzureLinux", "AKSWindows"] ==>
      exists r :: r in filtered && SameOsAndSku(r, images[j].value)
  }

  /**
   Exactly one image per supported OS and SKU of the input, and it is the latest one. The
   order of the result is that of a map iteration, so nothing is said about it.
   */
  method FilteredNodeImages(images: seq<Option<Image>>) returns (filtered: seq<Image>)
    ensures forall r :: r in filtered ==> Picked(images, r) && IsLatest(images, r)
    ensures EveryKindIn(images, filtered)
    ensures forall i, j :: 0 <= i < j < |filtered| ==> !SameOsAndSku(filtered[i], filtered[j])
  {
    ghost var at;
    var latest;
    latest, at := LatestImages(images);
    KeysOfProgress(images, latest, at);
    filtered := Collect(latest);
    CollectedIsPicked(images, latest, at, filtered);
    CollectedIsComplete(images, latest, at, filtered);
    CollectedIsDistinct(filtered);
  }

  // ----- Input order -----

  /**
   Shuffling the input may swap the pick for one that is neither newer nor older; when the
   versions are numeric, for one with the same version number.
   */
  lemma PickIgnoresInputOrder(images: seq<Option<Image>>, shuffled: seq<Option<Image>>, r: Image, r': Image)
    requires multiset(images) == multiset(shuffled)
    requires Picked(images, r) && Picked(shuffled, r') && SameOsAndSku(r, r')
    ensures !Newer(Str(r.version), Str(r'.version)) && !Newer(Str(r'.version), Str(r.version))
    ensures Numeric(Str(r.version)) && Numeric(Str(r'.version)) ==> Segments(Str(r.version)) == Segments(Str(r'.version))
  {
    PickIsMember(images, r);
    PickIsMember(shuffled, r');
    assert Some(r) in multiset(images) && Some(r') in multiset(shuffled);
    assert Some(r) in shuffled && Some(r') in images;
    PickIsUnbeaten(images, r, r');
    PickIsUnbeaten(shuffled, r', r);
    if Numeric(Str(r.version)) && Numeric(Str(r'.version)) {
      NumericVersionsAreTotal(Str(r.version), Str(r'.version));
    }
  }
}
