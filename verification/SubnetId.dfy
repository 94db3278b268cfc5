/**
 Printing and parsing of Azure subnet resource IDs.
 */
module SubnetId {
  import opened TtlCache
  import opened Text

  datatype Subnet = Subnet(subscriptionId: string, resourceGroup: string, vnet: string, subnet: string)

  /** The template of a subnet ID, one entry per slash-separated segment. */
  function Parts(v: Subnet): seq<string> {
    ["", "subscriptions", v.subscriptionId, "resourceGroups", v.resourceGroup, "providers",
     "Microsoft.Network", "virtualNetworks", v.vnet, "subnets", v.subnet]
  }

  /** `GetSubnetResourceID` */
  function Print(v: Subnet): string {
    Join(Parts(v), '/')
  }

  /** `GetVnetSubnetIDComponents`: split, pick, print again and compare ignoring case. */
  function Parse(id: string): Option<Subnet> {
    var parts := Split(id, '/');
    if |parts| != 11 then None
    else
      var v := Subnet(parts[2], parts[4], parts[8], parts[10]);
      if !EqualFold(Print(v), id) then None else Some(v)
  }

  predicate SlashFree(v: Subnet) {
    Free(v.subscriptionId, '/') && Free(v.resourceGroup, '/') && Free(v.vnet, '/') && Free(v.subnet, '/')
  }

  predicate SameIgnoringCase(v: Subnet, w: Subnet) {
    && EqualFold(v.subscriptionId, w.subscriptionId) && EqualFold(v.resourceGroup, w.resourceGroup)
    && EqualFold(v.vnet, w.vnet) && EqualFold(v.subnet, w.subnet)
  }

  /** The printed ID, segment by segment. */
  lemma SplitOfPrint(v: Subnet)
    requires SlashFree(v)
    ensures Split(Print(v), '/') ==
      ["", "subscriptions", v.subscriptionId, "resourceGroups", v.resourceGroup, "providers",
       "Microsoft.Network", "virtualNetworks", v.vnet, "subnets", v.subnet]
  {
    SplitOfJoin(Parts(v), '/');
  }

  /** Parsing a printed ID returns the components. */
  lemma ParseOfPrint(v: Subnet)
    requires SlashFree(v)
    ensures Parse(Print(v)) == Some(v)
  {
    SplitOfPrint(v);
  }

  /**
   The parser accepts exactly the strings that are, letter case aside, the printed form of
   some slash-free components.
   */
  lemma ParserAcceptsExactly(id: string)
    ensures Parse(id).Some? <==> exists v :: SlashFree(v) && EqualFold(Print(v), id)
  {
    var parts := Split(id, '/');
    if Parse(id).Some? {
      var v := Parse(id).value;
      assert SlashFree(v);
    }
    if v :| SlashFree(v) && EqualFold(Print(v), id) {
      AcceptsPrinted(v, id);
    }
  }

  /** On such a string it returns those components, spelled as in the string. */
  lemma AcceptsPrinted(v: Subnet, id: string)
    requires SlashFree(v) && EqualFold(Print(v), id)
    ensures Parse(id).Some? && SlashFree(Parse(id).value) && SameIgnoringCase(Parse(id).value, v)
    ensures var p := Split(id, '/'); |p| == 11 && Parse(id).value == Subnet(p[2], p[4], p[8], p[10])
  {
    SplitOfPrint(v);
    LowerOfSplit(Print(v), '/');
    LowerOfSplit(id, '/');
    var its := Split(id, '/');
    assert |its| == |LowerAll(its)| == |LowerAll(Parts(v))| == 11;
    PartsRebuilt(v, its);
    LowerOfJoin(Parts(Subnet(its[2], its[4], its[8], its[10])), '/');
    JoinOfSplit(id, '/');
    LowerOfJoin(its, '/');
  }

  /** The named parts of a split ID, put back into the template, fold to what the ID does. */
  lemma PartsRebuilt(v: Subnet, its: seq<string>)
    requires |its| == 11 && LowerAll(its) == LowerAll(Parts(v))
    ensures var w := Subnet(its[2], its[4], its[8], its[10]);
      LowerAll(Parts(w)) == LowerAll(its) && SameIgnoringCase(w, v)
  {
    assert forall i :: 0 <= i < 11 ==> ToLower(Parts(v)[i]) == LowerAll(Parts(v))[i] == LowerAll(its)[i] == ToLower(its[i]);
  }

  /** The parser accepts exactly eleven segments of which these seven read as in the template, letter case aside. */
  lemma AcceptsExactlyTheTemplate(id: string)
    ensures Parse(id).Some? <==>
      var p := Split(id, '/');
      && |p| == 11 && p[0] == "" && EqualFold(p[1], "subscriptions") && EqualFold(p[3], "resourceGroups")
      && EqualFold(p[5], "providers") && EqualFold(p[6], "Microsoft.Network") && EqualFold(p[7], "virtualNetworks") && EqualFold(p[9], "subnets")
  {
    var p := Split(id, '/');
    if |p| == 11 {
      FoldsToTemplate(p, Parts(Subnet(p[2], p[4], p[8], p[10])));
      SegmentsDecide(id, Subnet(p[2], p[4], p[8], p[10]));
    }
  }

  lemma FoldsToTemplate(p: seq<string>, q: seq<string>)
    requires |p| == |q| == 11 && p[2] == q[2] && p[4] == q[4] && p[8] == q[8] && p[10] == q[10]
    ensures LowerAll(p) == LowerAll(q) <==>
      && EqualFold(p[0], q[0]) && EqualFold(p[1], q[1]) && EqualFold(p[3], q[3]) && EqualFold(p[5], q[5])
      && EqualFold(p[6], q[6]) && EqualFold(p[7], q[7]) && EqualFold(p[9], q[9])
  {
    if LowerAll(p) == LowerAll(q) {
      assert forall i :: 0 <= i < 11 ==> ToLower(p[i]) == LowerAll(p)[i] == LowerAll(q)[i] == ToLower(q[i]);
    }
  }

  /** Strings are equal up to case exactly if their segments are. */
  lemma SegmentsDecide(id: string, v: Subnet)
    requires SlashFree(v)
    ensures EqualFold(Print(v), id) <==> LowerAll(Split(id, '/')) == LowerAll(Parts(v))
  {
    SplitOfJoin(Parts(v), '/');
    LowerOfSplit(Print(v), '/');
    LowerOfSplit(id, '/');
    JoinOfSplit(id, '/');
    LowerOfJoin(Split(id, '/'), '/');
    LowerOfJoin(Parts(v), '/');
  }

  /** Two IDs parse to the same components, case aside, exactly when the IDs are equal, case aside. */
  lemma ParseIsCaseInsensitive(id: string, id': string)
    requires Parse(id).Some? && Parse(id').Some?
    ensures EqualFold(id, id') <==> SameIgnoringCase(Parse(id).value, Parse(id').value)
  {
    var v, v' := Parse(id).value, Parse(id').value;
    if EqualFold(id, id') {
      AcceptsPrinted(v', id);
    }
    if SameIgnoringCase(v, v') {
      LowerOfJoin(Parts(v), '/');
      LowerOfJoin(Parts(v'), '/');
      assert LowerAll(Parts(v)) == LowerAll(Parts(v'));
    }
  }
}
