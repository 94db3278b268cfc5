/**
 The printed keys of the unavailable-offerings caches, next to the structured keys they
 stand for. Everything the cache knows is carried by these strings, so the whole design
 rests on printing being injective and on a group's prefix matching that group only.
 */
module OfferingKeys {
  import opened Text

  const SPOT := "spot"
  const UNRESERVED := ""

  // ----- The key builders of the source -----

  function CapacityReservationGroupScope(id: string): string {
    ToLower(id)
  }

  function SkuZoneKey(name: string, zone: string): string {
    Join(["skuZone", name, zone], ':')
  }

  function SingleInstanceKey(scope: string, name: string, zone: string, capacityType: string): string {
    if scope == UNRESERVED then Join([capacityType, name, zone], ':')
    else Join(["crg", scope, capacityType, name, zone], ':')
  }

  function VmFamilyKey(scope: string, family: string, zone: string, capacityType: string): string {
    if scope == UNRESERVED then ToLower(Join(["skuFamily", family, zone, capacityType], ':'))
    else ToLower(Join(["crg", scope, "skuFamily", family, zone, capacityType], ':'))
  }

  function SpotKey(): string {
    SingleInstanceKey(UNRESERVED, "", "", SPOT)
  }

  function GroupPrefix(scope: string): string {
    Join(["crg", scope, ""], ':')
  }

  // ----- The structured keys -----

  datatype SingleKey =
    | SkuZone(name: string, zone: string)
    | AllSpot
    | Offering(scope: string, name: string, zone: string, capacityType: string)

  datatype FamilyKey = Family(scope: string, family: string, zone: string, capacityType: string)

  function PrintSingle(k: SingleKey): string {
    match k
    case SkuZone(name, zone) => SkuZoneKey(name, zone)
    case AllSpot => SpotKey()
    case Offering(scope, name, zone, capacityType) => SingleInstanceKey(scope, name, zone, capacityType)
  }

  function PrintFamily(k: FamilyKey): string {
    VmFamilyKey(k.scope, k.family, k.zone, k.capacityType)
  }

  /** Family keys are case-insensitive: this is the representative of a key's case class. */
  function FoldFamily(k: FamilyKey): FamilyKey {
    Family(ToLower(k.scope), ToLower(k.family), ToLower(k.zone), ToLower(k.capacityType))
  }

  /** Names a placement may use: colon-free, not the reserved first components, not `spot::`. */
  predicate WfPlacement(name: string, zone: string, capacityType: string) {
    && Free(name, ':') && Free(zone, ':') && Free(capacityType, ':')
    && capacityType != "skuZone" && capacityType != "crg"
    && (name == "" && zone == "" ==> capacityType != SPOT)
  }

  predicate WfSingle(k: SingleKey) {
    match k
    case SkuZone(name, zone) => Free(name, ':') && Free(zone, ':')
    case AllSpot => true
    case Offering(scope, name, zone, capacityType) =>
      Free(scope, ':') && WfPlacement(name, zone, capacityType)
  }

  predicate WfFamily(k: FamilyKey) {
    Free(k.scope, ':') && Free(k.family, ':') && Free(k.zone, ':') && Free(k.capacityType, ':')
  }

  // ----- Injectivity and prefix safety -----

  function SingleParts(k: SingleKey): seq<string> {
    match k
    case SkuZone(name, zone) => ["skuZone", name, zone]
    case AllSpot => [SPOT, "", ""]
    case Offering(scope, name, zone, capacityType) =>
      if scope == UNRESERVED then [capacityType, name, zone] else ["crg", scope, capacityType, name, zone]
  }

  function FamilyParts(k: FamilyKey): seq<string> {
    var f := FoldFamily(k);
    if k.scope == UNRESERVED then ["skufamily", f.family, f.zone, f.capacityType]
    else ["crg", f.scope, "skufamily", f.family, f.zone, f.capacityType]
  }

  lemma SinglePartsPrint(k: SingleKey)
    requires WfSingle(k)
    ensures PrintSingle(k) == Join(SingleParts(k), ':') && AllFree(SingleParts(k), ':')
  {
  }

  lemma FamilyPartsPrint(k: FamilyKey)
    requires WfFamily(k)
    ensures PrintFamily(k) == Join(FamilyParts(k), ':') && AllFree(FamilyParts(k), ':')
  {
    var raw := if k.scope == UNRESERVED then ["skuFamily", k.family, k.zone, k.capacityType]
               else ["crg", k.scope, "skuFamily", k.family, k.zone, k.capacityType];
    LowerOfJoin(raw, ':');
    assert ToLower("skuFamily") == "skufamily" && ToLower("crg") == "crg";
    assert LowerAll(raw) == FamilyParts(k);
    forall i | 0 <= i < |raw| ensures Free(LowerAll(raw)[i], ':') {
      ToLowerKeepsFree(raw[i], ':');
    }
  }

  lemma PrintSingleInjective(a: SingleKey, b: SingleKey)
    requires WfSingle(a) && WfSingle(b)
    ensures PrintSingle(a) == PrintSingle(b) <==> a == b
  {
    SinglePartsPrint(a);
    SinglePartsPrint(b);
    if PrintSingle(a) == PrintSingle(b) {
      JoinInjective(SingleParts(a), SingleParts(b), ':');
      var p := SingleParts(a);
      assert p == SingleParts(b);
      assert |p| == 3 || |p| == 5;
    }
  }

  lemma PrintFamilyInjective(a: FamilyKey, b: FamilyKey)
    requires WfFamily(a) && WfFamily(b)
    ensures PrintFamily(a) == PrintFamily(b) <==> FoldFamily(a) == FoldFamily(b)
  {
    FamilyPartsPrint(a);
    FamilyPartsPrint(b);
    if PrintFamily(a) == PrintFamily(b) {
      JoinInjective(FamilyParts(a), FamilyParts(b), ':');
      var p, q := FamilyParts(a), FamilyParts(b);
      assert |p| == |q|;
      assert |p| == 4 ==> p[1] == q[1] && p[2] == q[2] && p[3] == q[3];
      assert |p| == 6 ==> p[1] == q[1] && p[3] == q[3] && p[4] == q[4] && p[5] == q[5];
    }
    if FoldFamily(a) == FoldFamily(b) {
      assert |a.scope| == |ToLower(a.scope)| == |b.scope|;
    }
  }

  lemma GroupPrefixMatchesSingle(k: SingleKey, scope: string)
    requires WfSingle(k) && Free(scope, ':') && scope != UNRESERVED
    ensures HasPrefix(PrintSingle(k), GroupPrefix(scope)) <==> k.Offering? && k.scope == scope
  {
    SinglePartsPrint(k);
    var p, q := ["crg", scope], SingleParts(k);
    PrefixOfJoin(p, q, ':');
    assert p + [""] == ["crg", scope, ""];
    assert q[..2] == p <==> q[0] == p[0] && q[1] == p[1];
  }

  lemma GroupPrefixMatchesFamily(k: FamilyKey, scope: string)
    requires WfFamily(k) && Free(scope, ':') && scope != UNRESERVED
    ensures HasPrefix(PrintFamily(k), GroupPrefix(scope)) <==> ToLower(k.scope) == scope
  {
    FamilyPartsPrint(k);
    var p, q := ["crg", scope], FamilyParts(k);
    PrefixOfJoin(p, q, ':');
    assert p + [""] == ["crg", scope, ""];
    assert q[..2] == p <==> q[0] == p[0] && q[1] == p[1];
    assert |ToLower(k.scope)| == |k.scope|;
  }
}
