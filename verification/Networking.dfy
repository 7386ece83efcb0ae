/**
  What an instance asks for, and how the references of its server follow from it: the subnets of its
  NICs, the security groups materialised for them, its volumes. The first subnet decides about VPC and
  network; here is when the other subnets and the groups agree with it.
 */
module Networking {
  import opened Prelude
  import opened Inventory
  import opened References
  import opened RuleExpansion
  import opened Subnets
  import N = Namespaces

  // ---------- the control plane's own resources ----------

  datatype Scoped = Scoped(tenant: string, workspace: string, name: string)

  datatype Nic = Nic(subnet: string, groups: seq<string>, publicIps: seq<string>)

  datatype SecaGroup = SecaGroup(rules: seq<SecaRule>, ruleRefs: seq<string>, labels: map<string, string>)

  datatype StandaloneRule = StandaloneRule(rule: SecaRule, labels: map<string, string>)

  datatype Sku = Sku(vcpu: nat, ram: nat)

  datatype Seca = Seca(
    workspaces: map<Scoped, bool>, // whether it is active
    nics: map<Scoped, Nic>,
    groups: map<Scoped, SecaGroup>,
    rules: map<Scoped, StandaloneRule>,
    skus: map<Scoped, Sku>)

  datatype Instance = Instance(
    tenant: string,
    workspace: string,
    name: string,
    labels: map<string, string>,
    primaryNic: Option<string>,
    additionalNics: seq<string>,
    group: Option<string>,
    sshKeys: seq<string>,
    boot: string,
    dataVolumes: seq<string>,
    sku: string,
    zone: string)

  const KEY_PAIR_SUFFIX := "-key"

  function MaterializedName(seca: string, network: string): string {
    seca + "-" + network
  }

  /** Appends a value unless it is empty or there already. */
  function AppendUnique(s: seq<string>, v: string): seq<string> {
    if v == "" || v in s then s else s + [v]
  }

  function AppendNames(s: seq<string>, resources: seq<string>): seq<string> {
    if resources == [] then s
    else AppendUnique(AppendNames(s, resources[..|resources| - 1]), LastSegment(resources[|resources| - 1]))
  }

  function SubnetsOf(nics: seq<Nic>): seq<string> {
    if nics == [] then [] else AppendUnique(SubnetsOf(nics[..|nics| - 1]), nics[|nics| - 1].subnet)
  }

  function GroupsOf(nics: seq<Nic>): seq<string> {
    if nics == [] then [] else AppendNames(GroupsOf(nics[..|nics| - 1]), nics[|nics| - 1].groups)
  }

  function PublicIpsOf(nics: seq<Nic>): seq<string> {
    if nics == [] then [] else AppendNames(PublicIpsOf(nics[..|nics| - 1]), nics[|nics| - 1].publicIps)
  }

  function NicRefs(d: Instance): seq<string> {
    (if d.primaryNic.Some? then [d.primaryNic.value] else []) + d.additionalNics
  }

  function GroupNames(d: Instance, nics: seq<Nic>): seq<string> {
    if d.group.Some? then AppendUnique(GroupsOf(nics), LastSegment(d.group.value)) else GroupsOf(nics)
  }

  function DataVolumes(namespace: string, resources: seq<string>): seq<Place> {
    if resources == [] then []
    else
      var before, name := DataVolumes(namespace, resources[..|resources| - 1]), LastSegment(resources[|resources| - 1]);
      if name == "" then before else before + [Place(namespace, name)]
  }

  // ---------- subnets ----------

  /** The part of the references that comes from the network graph. */
  datatype Net = Net(vpc: Place, network: string, subnets: seq<Place>, groups: seq<Place>, elasticIp: Option<Place>)

  function SubnetPlace(s: Subnet): Place {
    Place(s.namespace, s.name)
  }

  /** The listed subnet is what the store holds. */
  predicate Stands(things: Things, s: Subnet) {
    && Id(SUBNET, SubnetPlace(s)) in things
    && var t := things[Id(SUBNET, SubnetPlace(s))];
       t.spec == SubnetSpec(s.tenant, s.workspace, s.network, s.vpc) && s.active == (t.phase == Active)
  }

  ghost predicate Lists(list: seq<Subnet>, subnet: Place) {
    exists s :: s in list && SubnetPlace(s) == subnet
  }

  /** The list has the subnets of the store, all of them and as they are. */
  ghost predicate ListsSubnets(things: Things, list: seq<Subnet>) {
    && (forall s :: s in list ==> Stands(things, s))
    && (forall id :: id in things && id.kind == SUBNET ==> Lists(list, id.place))
  }

  lemma OneMoreListed(list: seq<Subnet>, s: Subnet)
    ensures Lists(list + [s], SubnetPlace(s))
    ensures forall p :: Lists(list, p) ==> Lists(list + [s], p)
  {
    assert s in list + [s];
    assert forall t :: t in list ==> t in list + [s];
  }

  predicate OfNetwork(things: Things, subnet: Place, network: string) {
    && Id(SUBNET, subnet) in things
    && var spec := things[Id(SUBNET, subnet)].spec;
       spec.SubnetSpec? && spec.network == network
  }

  /** The network a reference names; empty if it is bare. */
  function Wanted(resource: string): string {
    NetworkOf(Split(resource))
  }

  /** The subnet has the name the reference asks for, is in the instance's workspace and in the network named. */
  predicate Fits(things: Things, d: Instance, resource: string, subnet: Place) {
    && subnet.name == LastSegment(resource)
    && Id(SUBNET, subnet) in things
    && var spec := things[Id(SUBNET, subnet)].spec;
       && spec.SubnetSpec? && spec.tenant == d.tenant && spec.workspace == d.workspace
       && (Wanted(resource) == "" || spec.network == Wanted(resource))
  }

  /** An active subnet of the workspace with this name. */
  predicate Offered(things: Things, d: Instance, name: string, subnet: Place) {
    && IsActive(things, SUBNET, subnet) && subnet.name == name
    && var spec := things[Id(SUBNET, subnet)].spec;
       spec.SubnetSpec? && spec.tenant == d.tenant && spec.workspace == d.workspace
  }

  /** All that the name could mean is in one network. */
  ghost predicate OneNetwork(things: Things, d: Instance, name: string, network: string) {
    forall p :: Offered(things, d, name, p) ==> OfNetwork(things, p, network)
  }

  /** A bare reference was not ambiguous: when the pass began, its name meant this network only. */
  ghost predicate Unambiguous(start: Things, things: Things, d: Instance, resource: string, subnet: Place) {
    Wanted(resource) == "" ==>
      forall network :: OfNetwork(things, subnet, network) ==> OneNetwork(start, d, LastSegment(resource), network)
  }

  /** The subnets resolved so far, in a pass that began with the objects `start`. */
  ghost predicate SubnetsReady(start: Things, things: Things, d: Instance, resources: seq<string>, net: Net) {
    && |net.subnets| <= |resources|
    && (forall i :: 0 <= i < |net.subnets| ==>
          Fits(things, d, resources[i], net.subnets[i]) && Unambiguous(start, things, d, resources[i], net.subnets[i]))
    && AllActive(things, SUBNET, net.subnets)
    && (net.subnets != [] ==> InVpc(things, net.subnets[0], net.vpc) && OfNetwork(things, net.subnets[0], net.network))
  }

  lemma OneNetworkBefore(before: Things, after: Things, d: Instance, name: string, network: string)
    requires Extends(before, after) && OneNetwork(after, d, name, network)
    ensures OneNetwork(before, d, name, network)
  {
    forall p | Offered(before, d, name, p)
      ensures OfNetwork(before, p, network)
    {
      ActiveLasts(before, after, SUBNET, p);
      assert Offered(after, d, name, p);
    }
  }

  lemma SubnetsReadyLasts(start: Things, before: Things, after: Things, d: Instance, resources: seq<string>, net: Net)
    requires Extends(before, after) && SubnetsReady(start, before, d, resources, net)
    ensures SubnetsReady(start, after, d, resources, net)
  {
    hide LastSegment, Wanted, OneNetwork;
    AllActiveLasts(before, after, SUBNET, net.subnets);
    forall i | 0 <= i < |net.subnets|
      ensures Fits(after, d, resources[i], net.subnets[i]) && Unambiguous(start, after, d, resources[i], net.subnets[i])
    {
      assert Fits(before, d, resources[i], net.subnets[i]) &&
               Unambiguous(start, before, d, resources[i], net.subnets[i]);
      assert forall n :: OfNetwork(after, net.subnets[i], n) ==> OfNetwork(before, net.subnets[i], n);
    }
    if net.subnets != [] {
      assert net.subnets[0] in net.subnets;
      ActiveLasts(before, after, SUBNET, net.subnets[0]);
    }
  }

  lemma SubnetsReadyEarlier(earlier: Things, start: Things, things: Things, d: Instance, resources: seq<string>,
                            net: Net)
    requires Extends(earlier, start) && SubnetsReady(start, things, d, resources, net)
    ensures SubnetsReady(earlier, things, d, resources, net)
  {
    hide LastSegment, Wanted, OneNetwork, OfNetwork, Fits;
    forall i, network | 0 <= i < |net.subnets| && Wanted(resources[i]) == "" &&
        OfNetwork(things, net.subnets[i], network)
      ensures OneNetwork(earlier, d, LastSegment(resources[i]), network)
    {
      assert Unambiguous(start, things, d, resources[i], net.subnets[i]);
      OneNetworkBefore(earlier, start, d, LastSegment(resources[i]), network);
    }
  }

  lemma OneMoreSubnet(start: Things, things: Things, d: Instance, resources: seq<string>, before: Net, after: Net,
                      s: Subnet)
    requires SubnetsReady(start, things, d, resources, before) && |before.subnets| < |resources|
    requires IsActive(things, SUBNET, SubnetPlace(s)) && Stands(things, s) && Extends(start, things)
    requires var resource := resources[|before.subnets|];
             && Fits(things, d, resource, SubnetPlace(s))
             && (Wanted(resource) == "" ==> OneNetwork(things, d, LastSegment(resource), s.network))
    requires after ==
               if before.subnets == [] then before.(subnets := [SubnetPlace(s)], vpc := s.vpc, network := s.network)
                      else before.(subnets := before.subnets + [SubnetPlace(s)])
    ensures SubnetsReady(start, things, d, resources, after)
  {
    hide LastSegment, Wanted, OneNetwork, Fits;
    var n := |before.subnets|;
    if Wanted(resources[n]) == "" {
      OneNetworkBefore(start, things, d, LastSegment(resources[n]), s.network);
    }
    assert Unambiguous(start, things, d, resources[n], SubnetPlace(s));
    forall i | 0 <= i < |after.subnets|
      ensures Fits(things, d, resources[i], after.subnets[i]) &&
                Unambiguous(start, things, d, resources[i], after.subnets[i])
    {
      assert i < n ==> after.subnets[i] == before.subnets[i];
    }
  }

  /** What a listing says about the store: a bare name that was resolved means one network only. */
  lemma ResolvedMeansOneNetwork(things: Things, d: Instance, list: seq<Subnet>, resource: string, s: Subnet)
    requires Answers(list, d.tenant, d.workspace, resource, Resolved(s)) && Wanted(resource) == ""
    requires ListsSubnets(things, list)
    ensures OneNetwork(things, d, LastSegment(resource), s.network)
  {
    hide LastSegment, Split, NetworkOf;
    forall p | Offered(things, d, LastSegment(resource), p)
      ensures OfNetwork(things, p, s.network)
    {
      assert Lists(list, Id(SUBNET, p).place);
      var t :| t in list && SubnetPlace(t) == p;
      assert Stands(things, t) && Candidate(t, d.tenant, d.workspace, LastSegment(resource));
    }
  }

  /** There is a subnet in this network that the reference can be resolved to, and in no other. */
  ghost predicate OfferedAs(things: Things, d: Instance, resource: string, network: string) {
    && (exists p :: Offered(things, d, LastSegment(resource), p) && OfNetwork(things, p, network))
    && (if Wanted(resource) != "" then Wanted(resource) == network
        else OneNetwork(things, d, LastSegment(resource), network))
  }

  ghost predicate OfferedIn(things: Things, d: Instance, resource: string) {
    exists network :: OfferedAs(things, d, resource, network)
  }

  /** The bare name means subnets of two networks. */
  ghost predicate OfferedTwice(things: Things, d: Instance, resource: string) {
    Wanted(resource) == "" &&
    exists p, q, network :: Offered(things, d, LastSegment(resource), p) && OfNetwork(things, p, network)
      && Offered(things, d, LastSegment(resource), q) && !OfNetwork(things, q, network)
  }

  ghost predicate AllOffered(things: Things, d: Instance, resources: seq<string>) {
    forall i :: 0 <= i < |resources| ==> OfferedIn(things, d, resources[i])
  }

  /** What the answer found in a listing says about the store. */
  lemma ListAnswers(things: Things, d: Instance, list: seq<Subnet>, resource: string, found: Resolution)
    requires Answers(list, d.tenant, d.workspace, resource, found)
    requires ListsSubnets(things, list)
    ensures found.Resolved? ==>
              && IsActive(things, SUBNET, SubnetPlace(found.subnet)) && Stands(things, found.subnet)
              && Fits(things, d, resource, SubnetPlace(found.subnet))
              && (Wanted(resource) == "" ==> OneNetwork(things, d, LastSegment(resource), found.subnet.network))
              && OfferedAs(things, d, resource, found.subnet.network)
    ensures found.Resolved? <==> OfferedIn(things, d, resource)
    ensures found.Ambiguous? <==> OfferedTwice(things, d, resource)
  {
    hide LastSegment, Split, NetworkOf, OneNetwork;
    match found
    case Resolved(s) =>
      if Wanted(resource) == "" {
        ResolvedMeansOneNetwork(things, d, list, resource, s);
        OneMeansNotTwo(things, d, resource, s.network);
      }
      assert Offered(things, d, LastSegment(resource), SubnetPlace(s)) && OfNetwork(things, SubnetPlace(s), s.network);
      assert OfferedAs(things, d, resource, s.network);
    case Ambiguous(first, second) =>
      AmbiguousMeansTwo(things, d, list, resource, first, second);
      forall network
        ensures !OfferedAs(things, d, resource, network)
      {
        if OneNetwork(things, d, LastSegment(resource), network) {
          OneMeansNotTwo(things, d, resource, network);
        }
      }
    case NotReady =>
      forall p | Offered(things, d, LastSegment(resource), p)
        ensures Wanted(resource) != "" && !OfNetwork(things, p, Wanted(resource))
      {
        OfferedIsListed(things, d, list, LastSegment(resource), p);
      }
  }

  lemma OfferedIsListed(things: Things, d: Instance, list: seq<Subnet>, name: string, p: Place)
    requires ListsSubnets(things, list) && Offered(things, d, name, p)
    ensures exists t :: t in list && SubnetPlace(t) == p && Stands(things, t) &&
              Candidate(t, d.tenant, d.workspace, name)
  {
    assert Lists(list, Id(SUBNET, p).place);
    var t :| t in list && SubnetPlace(t) == p;
    assert Stands(things, t) && Candidate(t, d.tenant, d.workspace, name);
  }

  lemma OneMeansNotTwo(things: Things, d: Instance, resource: string, network: string)
    requires OneNetwork(things, d, LastSegment(resource), network)
    ensures !OfferedTwice(things, d, resource)
  {
    hide LastSegment, Wanted;
  }

  lemma AmbiguousMeansTwo(things: Things, d: Instance, list: seq<Subnet>, resource: string, first: string,
                          second: string)
    requires Answers(list, d.tenant, d.workspace, resource, Ambiguous(first, second)) && ListsSubnets(things, list)
    ensures OfferedTwice(things, d, resource)
  {
    hide LastSegment, Split, NetworkOf;
    var name := LastSegment(resource);
    var s :| s in list && Candidate(s, d.tenant, d.workspace, name) && s.network == first;
    var t :| t in list && Candidate(t, d.tenant, d.workspace, name) && t.network == second;
    assert Stands(things, s) && Stands(things, t);
    assert Offered(things, d, name, SubnetPlace(s)) && OfNetwork(things, SubnetPlace(s), first);
    assert Offered(things, d, name, SubnetPlace(t)) && !OfNetwork(things, SubnetPlace(t), first);
  }

  // ---------- when all subnets are in one network ----------

  /** What a reference meant when the pass began: its network, or that of every subnet of its name. */
  ghost predicate Meant(start: Things, d: Instance, resource: string, network: string) {
    if Wanted(resource) != "" then Wanted(resource) == network else OneNetwork(start, d, LastSegment(resource), network)
  }

  ghost predicate AllMeant(start: Things, d: Instance, resources: seq<string>, network: string) {
    forall i :: 0 <= i < |resources| ==> Meant(start, d, resources[i], network)
  }

  /**
    The code takes VPC and network from the first subnet and does not compare the others with it. All
    of them are in that network exactly if there is one network that every reference meant, given that
    every bare name was offered when the pass began.
   */
  lemma SubnetsShareNetworkIff(start: Things, things: Things, d: Instance, resources: seq<string>, net: Net)
    requires SubnetsReady(start, things, d, resources, net) && |net.subnets| == |resources|
    requires forall i :: 0 <= i < |resources| && Wanted(resources[i]) == "" ==>
               exists p :: Offered(start, d, LastSegment(resources[i]), p)
    ensures (forall i :: 0 <= i < |resources| ==> OfNetwork(things, net.subnets[i], net.network)) <==>
            exists network :: AllMeant(start, d, resources, network)
  {
    hide LastSegment, Wanted, Meant, Fits, Unambiguous;
    forall i, network | 0 <= i < |resources|
      ensures OfNetwork(things, net.subnets[i], network) <==> Meant(start, d, resources[i], network)
    {
      SubnetIsMeant(start, things, d, resources[i], net.subnets[i], network);
    }
    if forall i :: 0 <= i < |resources| ==> OfNetwork(things, net.subnets[i], net.network) {
      assert AllMeant(start, d, resources, net.network);
    }
    if network :| AllMeant(start, d, resources, network) && resources != [] {
      assert OfNetwork(things, net.subnets[0], network);
      assert network == net.network;
    }
  }

  lemma SubnetIsMeant(start: Things, things: Things, d: Instance, resource: string, subnet: Place, network: string)
    requires Fits(things, d, resource, subnet) && Unambiguous(start, things, d, resource, subnet)
    requires Wanted(resource) == "" ==> exists p :: Offered(start, d, LastSegment(resource), p)
    ensures OfNetwork(things, subnet, network) <==> Meant(start, d, resource, network)
  {
    hide LastSegment, Wanted;
    var own := things[Id(SUBNET, subnet)].spec.network;
    assert OfNetwork(things, subnet, own);
    if Wanted(resource) == "" {
      assert OneNetwork(start, d, LastSegment(resource), own);
      var p :| Offered(start, d, LastSegment(resource), p);
      assert OfNetwork(start, p, own);
    }
  }

  /** For references that all name a network: exactly if they all name the same one. */
  lemma QualifiedSubnetsShareNetworkIff(start: Things, things: Things, d: Instance, resources: seq<string>, net: Net)
    requires SubnetsReady(start, things, d, resources, net) && |net.subnets| == |resources| > 0
    requires forall i :: 0 <= i < |resources| ==> Wanted(resources[i]) != ""
    ensures (forall i :: 0 <= i < |resources| ==> OfNetwork(things, net.subnets[i], net.network)) <==>
            (forall i, j :: 0 <= i < |resources| && 0 <= j < |resources| ==>
                Wanted(resources[i]) == Wanted(resources[j]))
  {
    hide LastSegment, Wanted, OneNetwork;
    forall i, n | 0 <= i < |resources|
      ensures OfNetwork(things, net.subnets[i], n) <==> Wanted(resources[i]) == n
    {
      assert Fits(things, d, resources[i], net.subnets[i]);
    }
  }

  /** The converter of subnets gives every network of a workspace one VPC, named after it. */
  predicate ConverterMade(hash: N.Hash, spec: Spec) {
    spec.SubnetSpec? ==> spec.vpc == Place(N.ComputeNamespace(hash, spec.tenant, spec.workspace), spec.network)
  }

  /** Being in one network is then the same as being in one VPC. */
  lemma SubnetsShareVpcIff(hash: N.Hash, start: Things, things: Things, d: Instance, resources: seq<string>, net: Net)
    requires SubnetsReady(start, things, d, resources, net) && |net.subnets| == |resources| > 0
    requires forall id :: id in things ==> ConverterMade(hash, things[id].spec)
    ensures net.vpc == Place(N.ComputeNamespace(hash, d.tenant, d.workspace), net.network)
    ensures forall i :: 0 <= i < |resources| ==>
              (InVpc(things, net.subnets[i], net.vpc) <==> OfNetwork(things, net.subnets[i], net.network))
  {
    hide LastSegment, Wanted, OneNetwork;
    forall i | 0 <= i < |resources|
      ensures things[Id(SUBNET, net.subnets[i])].spec.vpc
           == Place(N.ComputeNamespace(hash, d.tenant, d.workspace), things[Id(SUBNET, net.subnets[i])].spec.network)
    {
      assert Fits(things, d, resources[i], net.subnets[i]);
    }
  }

  /** Two references that name different networks: whatever the pass resolves them to is in two networks. */
  lemma TwoNetworks(start: Things, things: Things, d: Instance, resources: seq<string>, net: Net, i: nat)
    requires SubnetsReady(start, things, d, resources, net) && |net.subnets| == |resources|
    requires i < |resources| && Wanted(resources[0]) != "" && Wanted(resources[i]) !in {"", Wanted(resources[0])}
    ensures AllActive(things, SUBNET, net.subnets) && OfNetwork(things, net.subnets[i], Wanted(resources[i]))
    ensures net.network == Wanted(resources[0]) && !OfNetwork(things, net.subnets[i], net.network)
  {
    hide LastSegment, Wanted, OneNetwork;
    assert Fits(things, d, resources[0], net.subnets[0]) && Fits(things, d, resources[i], net.subnets[i]);
  }

  // ---------- security groups ----------

  /** The group was made for this group of the control plane in this network and VPC. */
  predicate IsFor(spec: Spec, name: string, network: string, vpc: Place) {
    spec.GroupSpec? && spec.seca == name && spec.of == network && spec.within == vpc
  }

  /** The group carries the name of what it was made for, and is in the VPC of its network. */
  predicate Filed(id: Id, spec: Spec) {
    && spec.GroupSpec?
    && id.place.name == MaterializedName(spec.seca, spec.of)
    && spec.within == Place(id.place.namespace, spec.of)
  }

  lemma DashSplits(a: string, n: string, b: string, m: string)
    requires '-' !in a && '-' !in n && MaterializedName(b, m) == MaterializedName(a, n)
    ensures b == a && m == n
  {
    var text := a + "-" + n;
    assert text == b + "-" + m && text[|b|] == '-';
    assert forall k :: 0 <= k < |text| && k != |a| ==> text[k] == (if k < |a| then a[k] else n[k - |a| - 1]);
    assert |b| == |a|;
    assert text[..|a|] == a && text[..|b|] == b && text[|a| + 1..] == n && text[|b| + 1..] == m;
  }

  /** Moving a dash from one part of a name to the other gives another pair with the same name. */
  lemma DashMoves(a: string, n: string)
    requires '-' in a || '-' in n
    ensures exists b, m :: MaterializedName(b, m) == MaterializedName(a, n) && b != a && m != n
  {
    if '-' in a {
      var k :| 0 <= k < |a| && a[k] == '-';
      var b, m := a[..k], a[k + 1..] + "-" + n;
      assert a == b + "-" + a[k + 1..];
      assert MaterializedName(b, m) == MaterializedName(a, n);
    } else {
      var k :| 0 <= k < |n| && n[k] == '-';
      var b, m := a + "-" + n[..k], n[k + 1..];
      assert n == n[..k] + "-" + m;
      assert MaterializedName(b, m) == MaterializedName(a, n);
    }
  }

  /** Two groups in two networks can come to share one materialised group. */
  lemma MaterializedNamesCollide(a: string, b: string, c: string)
    ensures MaterializedName(a + "-" + b, c) == MaterializedName(a, b + "-" + c)
  {
  }

  /** A materialised name means one group in one network exactly if neither part has a dash. */
  lemma MaterializedNameIsUniqueIff(a: string, n: string)
    ensures (forall b, m :: MaterializedName(b, m) == MaterializedName(a, n) ==> b == a && m == n)
            <==> '-' !in a && '-' !in n
  {
    if '-' !in a && '-' !in n {
      forall b, m | MaterializedName(b, m) == MaterializedName(a, n)
        ensures b == a && m == n
      {
        DashSplits(a, n, b, m);
      }
    } else {
      DashMoves(a, n);
    }
  }

  /**
    A group found under its name is the one asked for, whatever it is, exactly if neither part of the
    name has a dash; otherwise it can be another group of another network, and in that one's VPC.
   */
  lemma FiledGroupIsForIff(namespace: string, name: string, network: string)
    ensures (forall spec :: Filed(Id(GROUP, Place(namespace, MaterializedName(name, network))), spec) ==>
              IsFor(spec, name, network, Place(namespace, network)))
            <==> '-' !in name && '-' !in network
  {
    hide MaterializedName;
    var id := Id(GROUP, Place(namespace, MaterializedName(name, network)));
    MaterializedNameIsUniqueIff(name, network);
    if '-' in name || '-' in network {
      DashMoves(name, network);
      var b, m :| MaterializedName(b, m) == MaterializedName(name, network) && b != name && m != network;
      assert Filed(id, GroupSpec("", b, m, Place(namespace, m), []));
    }
  }

  // ---------- what a pass creates ----------

  function RuleId(rule: SecurityRule): Id {
    Id(RULE, Place(rule.namespace, rule.name))
  }

  ghost predicate RulesExist(things: Things, rules: seq<SecurityRule>) {
    forall i :: 0 <= i < |rules| ==> RuleId(rules[i]) in things
  }

  /** The rules created since then are rules of the expansion, and were not there before. */
  ghost predicate RulesMade(start: Things, things: Things, created: seq<Id>, from: nat, rules: seq<SecurityRule>) {
    forall i :: from <= i < |created| && created[i].kind == RULE ==>
      && created[i] in things && created[i] !in start
      && exists j :: 0 <= j < |rules| && created[i] == RuleId(rules[j]) &&
          things[created[i]].spec == RuleSpecOf(rules[j])
  }

  /** A group created since then is this one, was made like this, and was not there before. */
  ghost predicate GroupMade(start: Things, things: Things, created: seq<Id>, from: nat, id: Id, spec: Spec) {
    forall i :: from <= i < |created| && created[i].kind == GROUP ==>
      created[i] == id && id in things && id !in start && things[id].spec == spec
  }

  ghost predicate CreatedSince(created: seq<Id>, from: nat, id: Id) {
    exists i :: from <= i < |created| && created[i] == id
  }

  // ---------- when the rules were edited ----------

  function RuleAt(group: Place, n: nat): Id {
    Id(RULE, Place(group.namespace, RuleName(group.name, n)))
  }

  /** The rules under a group are those its rules were expanded to. */
  ghost predicate Holds(things: Things, group: Place, rules: seq<SecurityRule>) {
    && (forall i :: 0 <= i < |rules| ==>
          RuleAt(group, i) in things && things[RuleAt(group, i)].spec == RuleSpecOf(rules[i]))
    && (forall n: nat :: n >= |rules| ==> RuleAt(group, n) !in things)
  }

  /** Nobody else makes rules for the group. */
  ghost predicate OnlyOurs(start: Things, things: Things, created: seq<Id>, from: nat, group: Place) {
    forall n: nat :: RuleAt(group, n) in things ==>
        RuleAt(group, n) in start || CreatedSince(created, from, RuleAt(group, n))
  }

  /** The rules under the group say what they should. */
  ghost predicate AllRight(things: Things, group: Place, rules: seq<SecurityRule>) {
    forall i :: 0 <= i < |rules| ==>
      RuleAt(group, i) in things && things[RuleAt(group, i)].spec == RuleSpecOf(rules[i])
  }

  /** At every position both have, the two expansions have the same rule. */
  ghost predicate Agree(made: seq<SecurityRule>, now: seq<SecurityRule>) {
    forall i :: 0 <= i < |made| && i < |now| ==> made[i] == now[i]
  }

  lemma CreatedRuleIsRight(start: Things, things: Things, created: seq<Id>, from: nat, now: seq<RuleSpec>, group: Place,
                           n: nat)
    requires RulesMade(start, things, created, from, Expansion(now, group.name, group.namespace))
    requires CreatedSince(created, from, RuleAt(group, n))
    ensures n < |Expansion(now, group.name, group.namespace)| && RuleAt(group, n) in things
    ensures things[RuleAt(group, n)].spec == RuleSpecOf(Expansion(now, group.name, group.namespace)[n])
  {
    hide Combos, RuleName;
    var rules := Expansion(now, group.name, group.namespace);
    var k :| from <= k < |created| && created[k] == RuleAt(group, n);
    var j :| 0 <= j < |rules| && created[k] == RuleId(rules[j]) && things[created[k]].spec == RuleSpecOf(rules[j]);
    NamesAreDistinct(group.name, n, j);
  }

  /**
    A group whose rules were expanded from `made` is met by a pass that expands `now`. What is there
    under a name is taken as it is: all rules are right after the pass if and only if the two
    expansions agree wherever both have a rule, and rules stay behind if and only if `made` had more.
   */
  lemma EditedRulesAreRightIff(start: Things, things: Things, created: seq<Id>, from: nat, made: seq<RuleSpec>,
                               now: seq<RuleSpec>, group: Place)
    requires Extends(start, things) && OnlyOurs(start, things, created, from, group)
    requires Holds(start, group, Expansion(made, group.name, group.namespace))
    requires RulesMade(start, things, created, from, Expansion(now, group.name, group.namespace))
    requires RulesExist(things, Expansion(now, group.name, group.namespace))
    ensures var before, after := Expansion(made, group.name, group.namespace),
              Expansion(now, group.name, group.namespace);
            && (AllRight(things, group, after) <==> Agree(before, after))
            && ((exists n: nat :: n >= |after| && RuleAt(group, n) in things) <==> |before| > |after|)
  {
    var before, after := Expansion(made, group.name, group.namespace), Expansion(now, group.name, group.namespace);
    forall i | 0 <= i < |after|
      ensures RuleAt(group, i) in things
      ensures things[RuleAt(group, i)].spec == RuleSpecOf(after[i]) <==> i >= |before| || before[i] == after[i]
    {
      assert RuleId(after[i]) == RuleAt(group, i);
      hide Expansion, RuleName, RulesMade;
      if i >= |before| {
        CreatedRuleIsRight(start, things, created, from, now, group, i);
      }
    }
    hide Expansion, RuleName, RulesMade;
    if |before| > |after| {
      assert RuleAt(group, |after|) in things;
    }
    forall n: nat | n >= |after| && RuleAt(group, n) in things
      ensures n < |before|
    {
      if CreatedSince(created, from, RuleAt(group, n)) {
        CreatedRuleIsRight(start, things, created, from, now, group, n);
      }
    }
  }

  lemma NothingMade(start: Things, things: Things, created: seq<Id>)
    ensures forall id, spec :: GroupMade(start, things, created, |created|, id, spec)
    ensures forall rules :: RulesMade(start, things, created, |created|, rules)
  {
  }

  lemma GroupJustMade(start: Things, things: Things, before: seq<Id>, created: seq<Id>, id: Id, spec: Spec)
    requires id.kind == GROUP
    requires created == before || (created == before + [id] && id !in start && id in things && things[id].spec == spec)
    ensures Grown(before, created, {GROUP})
    ensures GroupMade(start, things, created, |before|, id, spec)
    ensures forall rules :: RulesMade(start, things, created, |before|, rules)
  {
  }

  lemma RulesMadeLast(start: Things, before: Things, after: Things, created: seq<Id>, from: nat,
                      rules: seq<SecurityRule>)
    requires Extends(before, after) && RulesMade(start, before, created, from, rules)
    ensures RulesMade(start, after, created, from, rules)
  {
    forall i | from <= i < |created| && created[i].kind == RULE
      ensures exists j :: 0 <= j < |rules| && created[i] == RuleId(rules[j]) &&
                after[created[i]].spec == RuleSpecOf(rules[j])
    {
      var j :| 0 <= j < |rules| && created[i] == RuleId(rules[j]) && before[created[i]].spec == RuleSpecOf(rules[j]);
      assert after[created[i]].spec == RuleSpecOf(rules[j]);
    }
  }

  lemma OneMoreRuleMade(start: Things, things: Things, created: seq<Id>, from: nat, rules: seq<SecurityRule>, n: nat)
    requires n < |rules| && RulesMade(start, things, created, from, rules)
    requires RuleId(rules[n]) in things && RuleId(rules[n]) !in start &&
               things[RuleId(rules[n])].spec == RuleSpecOf(rules[n])
    ensures RulesMade(start, things, created + [RuleId(rules[n])], from, rules)
  {
  }

  /** Before the rules, only the group was created. */
  lemma RulesMadeEarlier(earlier: Things, start: Things, things: Things, known: seq<Id>, created: seq<Id>, from: nat,
                         rules: seq<SecurityRule>)
    requires Extends(earlier, start)
    requires from <= |known| && known <= created && RulesMade(start, things, created, |known|, rules)
    requires forall i :: from <= i < |known| ==> known[i].kind != RULE
    ensures RulesMade(earlier, things, created, from, rules)
  {
  }

  lemma GroupMadeLast(start: Things, before: Things, after: Things, known: seq<Id>, created: seq<Id>, from: nat,
                      id: Id, spec: Spec)
    requires Extends(before, after) && GroupMade(start, before, known, from, id, spec) && known <= created
    requires forall i :: |known| <= i < |created| ==> created[i].kind != GROUP
    ensures GroupMade(start, after, created, from, id, spec)
  {
  }

  lemma RulesLast(before: Things, after: Things, rules: seq<SecurityRule>)
    requires Extends(before, after)
    ensures RulesExist(before, rules) ==> RulesExist(after, rules)
  {
  }

  /** New objects were created after the known ones, of these kinds only. */
  ghost predicate Grown(before: seq<Id>, after: seq<Id>, kinds: set<Kind>) {
    before <= after && forall i :: |before| <= i < |after| ==> after[i].kind in kinds
  }

  lemma GrownAcross(a: seq<Id>, b: seq<Id>, c: seq<Id>, j: set<Kind>, k: set<Kind>)
    requires Grown(a, b, j) && Grown(b, c, k) && j <= k
    ensures Grown(a, c, k)
  {
  }

  // ---------- what was read ----------

  /** What was read of the control plane's own resources, read by read. */
  ghost predicate NicsSeen(d: Instance, nics: seq<Nic>, seen: seq<Seca>, from: nat) {
    && |nics| <= |NicRefs(d)| && from + |nics| <= |seen|
    && forall i :: 0 <= i < |nics| ==>
      var key := Scoped(d.tenant, d.workspace, LastSegment(NicRefs(d)[i]));
      key in seen[from + i].nics && seen[from + i].nics[key] == nics[i]
  }

  /** The workspace was active when it was read. */
  ghost predicate WorkspaceSeen(d: Instance, seen: seq<Seca>, at: nat) {
    && at < |seen|
    && var key := Scoped(d.tenant, "", d.workspace);
       key in seen[at].workspaces && seen[at].workspaces[key]
  }

  lemma ReadsLast(d: Instance, nics: seq<Nic>, seen: seq<Seca>, later: seq<Seca>, at: nat)
    requires seen <= later
    ensures WorkspaceSeen(d, seen, at) ==> WorkspaceSeen(d, later, at)
    ensures NicsSeen(d, nics, seen, at) ==> NicsSeen(d, nics, later, at)
  {
    hide LastSegment;
    assert forall i :: 0 <= i < |seen| ==> later[i] == seen[i];
  }

  ghost predicate GroupSeen(d: Instance, name: string, group: SecaGroup, seen: seq<Seca>, at: nat) {
    && at < |seen|
    && var key := Scoped(d.tenant, d.workspace, name);
       key in seen[at].groups && seen[at].groups[key] == group
  }

  ghost predicate RulesSeen(d: Instance, refs: seq<string>, specs: seq<RuleSpec>, seen: seq<Seca>, from: nat) {
    && |specs| == |refs| && from + |refs| <= |seen|
    && forall i :: 0 <= i < |refs| ==>
      var key := Scoped(d.tenant, d.workspace, LastSegment(refs[i]));
      key in seen[from + i].rules &&
          specs[i] == Normalized(seen[from + i].rules[key].rule, seen[from + i].rules[key].labels)
  }

  lemma NoNicsYet(d: Instance, seen: seq<Seca>)
    ensures NicsSeen(d, [], seen, |seen|)
    ensures SubnetsOf([]) == [] && GroupsOf([]) == [] && PublicIpsOf([]) == []
  {
  }

  lemma OneMoreNicCollected(nics: seq<Nic>, nic: Nic)
    ensures SubnetsOf(nics + [nic]) == AppendUnique(SubnetsOf(nics), nic.subnet)
    ensures GroupsOf(nics + [nic]) == AppendNames(GroupsOf(nics), nic.groups)
    ensures PublicIpsOf(nics + [nic]) == AppendNames(PublicIpsOf(nics), nic.publicIps)
  {
    hide AppendNames, AppendUnique;
    assert (nics + [nic])[..|nics|] == nics;
  }

  lemma OneMoreNic(d: Instance, nics: seq<Nic>, before: seq<Seca>, seen: seq<Seca>, from: nat, nic: Nic)
    requires |nics| < |NicRefs(d)| && |before| == from + |nics| && NicsSeen(d, nics, before, from)
    requires |seen| == |before| + 1 && before <= seen
    requires var key := Scoped(d.tenant, d.workspace, LastSegment(NicRefs(d)[|nics|]));
             key in seen[|before|].nics && seen[|before|].nics[key] == nic
    ensures NicsSeen(d, nics + [nic], seen, from)
  {
    hide LastSegment;
    assert forall i :: 0 <= i < |before| ==> seen[i] == before[i];
  }

  lemma OneMoreRuleSeen(d: Instance, refs: seq<string>, n: nat, specs: seq<RuleSpec>, before: seq<Seca>,
                        seen: seq<Seca>, from: nat)
    requires n < |refs| && |before| == from + n && RulesSeen(d, refs[..n], specs, before, from)
    requires |seen| == |before| + 1 && before <= seen
    requires Scoped(d.tenant, d.workspace, LastSegment(refs[n])) in seen[|before|].rules
    ensures var rule := seen[|before|].rules[Scoped(d.tenant, d.workspace, LastSegment(refs[n]))];
            RulesSeen(d, refs[..n + 1], specs + [Normalized(rule.rule, rule.labels)], seen, from)
  {
    hide LastSegment, Normalized;
    assert forall i :: 0 <= i < |before| ==> seen[i] == before[i];
    assert forall i :: 0 <= i < n ==> refs[..n + 1][i] == refs[..n][i];
  }

  lemma GroupStillSeen(d: Instance, name: string, group: SecaGroup, before: seq<Seca>, seen: seq<Seca>, at: nat)
    requires before <= seen && at < |before|
    requires var key := Scoped(d.tenant, d.workspace, name); key in before[at].groups && before[at].groups[key] == group
    ensures GroupSeen(d, name, group, seen, at)
  {
  }

  /** Every group created since then was made for one of the names, in this network and VPC. */
  ghost predicate GroupsMade(start: Things, things: Things, created: seq<Id>, from: nat, namespace: string,
                             names: seq<string>, network: string, vpc: Place) {
    forall i :: from <= i < |created| && created[i].kind == GROUP ==>
      && created[i] in things && created[i] !in start
      && exists j :: 0 <= j < |names| && created[i].place == Place(namespace, MaterializedName(names[j], network))
           && IsFor(things[created[i]].spec, names[j], network, vpc)
  }

  lemma NoGroupsMade(start: Things, things: Things, created: seq<Id>)
    ensures forall namespace, names, network, vpc ::
              GroupsMade(start, things, created, |created|, namespace, names, network, vpc)
  {
  }

  lemma OneMoreGroupsMade(start: Things, before: Things, things: Things, known: seq<Id>, created: seq<Id>, from: nat,
                          namespace: string, names: seq<string>, n: nat, network: string, vpc: Place, spec: Spec)
    requires Extends(start, before) && Extends(before, things) && from <= |known| && known <= created && n < |names|
    requires GroupsMade(start, before, known, from, namespace, names, network, vpc)
    requires GroupMade(before, things, created, |known|,
               Id(GROUP, Place(namespace, MaterializedName(names[n], network))), spec)
    requires IsFor(spec, names[n], network, vpc)
    ensures GroupsMade(start, things, created, from, namespace, names, network, vpc)
  {
    hide MaterializedName, IsFor;
    forall i | from <= i < |created| && created[i].kind == GROUP
      ensures created[i] in things && created[i] !in start
      ensures exists j :: 0 <= j < |names| && created[i].place == Place(namespace, MaterializedName(names[j], network))
                && IsFor(things[created[i]].spec, names[j], network, vpc)
    {
      if i < |known| {
        assert created[i] == known[i];
        var j :| 0 <= j < |names| && known[i].place == Place(namespace, MaterializedName(names[j], network))
              && IsFor(before[known[i]].spec, names[j], network, vpc);
        assert IsFor(things[created[i]].spec, names[j], network, vpc);
      } else {
        assert IsFor(things[created[i]].spec, names[n], network, vpc);
      }
    }
  }

  lemma GroupsMadeLast(earlier: Things, start: Things, before: Things, after: Things, known: seq<Id>, created: seq<Id>,
                       from: nat, namespace: string, names: seq<string>, network: string, vpc: Place)
    requires Extends(earlier, start) && Extends(before, after) && known <= created
    requires GroupsMade(start, before, known, from, namespace, names, network, vpc)
    requires forall i :: |known| <= i < |created| ==> created[i].kind != GROUP
    ensures GroupsMade(earlier, after, created, from, namespace, names, network, vpc)
  {
    hide MaterializedName, IsFor;
    forall i | from <= i < |created| && created[i].kind == GROUP
      ensures created[i] in after && created[i] !in earlier
      ensures exists j :: 0 <= j < |names| && created[i].place == Place(namespace, MaterializedName(names[j], network))
                && IsFor(after[created[i]].spec, names[j], network, vpc)
    {
      assert created[i] == known[i];
      var j :| 0 <= j < |names| && known[i].place == Place(namespace, MaterializedName(names[j], network))
            && IsFor(before[known[i]].spec, names[j], network, vpc);
      assert IsFor(after[created[i]].spec, names[j], network, vpc);
    }
  }

  lemma SameNetworkSameName(a: string, b: string, network: string)
    ensures MaterializedName(a, network) == MaterializedName(b, network) ==> a == b
  {
    assert MaterializedName(a, network)[..|a|] == a && MaterializedName(b, network)[..|b|] == b;
  }

  /**
    Over a whole pass: a group that was handed out is the one the instance asked for, in the network and
    VPC of its server, exactly if the pass created it or the one that was there already was made for the
    same.
   */
  lemma HandedOutGroupsAreForIff(start: Things, things: Things, created: seq<Id>, from: nat, namespace: string,
                                 names: seq<string>, net: Net, i: nat)
    requires Extends(start, things) && i < |names|
    requires GroupsMade(start, things, created, from, namespace, names, net.network, net.vpc)
    requires var id := Id(GROUP, Place(namespace, MaterializedName(names[i], net.network)));
             id in start || CreatedSince(created, from, id)
    ensures var id := Id(GROUP, Place(namespace, MaterializedName(names[i], net.network)));
            && id in things
            && (IsFor(things[id].spec, names[i], net.network, net.vpc) <==>
                  CreatedSince(created, from, id) ||
                      (id in start && IsFor(start[id].spec, names[i], net.network, net.vpc)))
  {
    hide MaterializedName;
    var id := Id(GROUP, Place(namespace, MaterializedName(names[i], net.network)));
    if CreatedSince(created, from, id) {
      var k :| from <= k < |created| && created[k] == id;
      var j :| 0 <= j < |names| && id.place == Place(namespace, MaterializedName(names[j], net.network))
            && IsFor(things[id].spec, names[j], net.network, net.vpc);
      SameNetworkSameName(names[j], names[i], net.network);
    }
  }

  // ---------- the parts of the references ----------

  /** How the network part follows from what the NICs name, in a pass that began with `start`. */
  ghost predicate NetFollows(start: Things, things: Things, d: Instance, resources: seq<string>, names: seq<string>,
                             ips: seq<string>, namespace: string, net: Net) {
    && |net.subnets| == |resources| > 0 && SubnetsReady(start, things, d, resources, net)
    && |net.groups| == |names| > 0
    && (forall i :: 0 <= i < |names| ==> net.groups[i] == Place(namespace, MaterializedName(names[i], net.network)))
    && net.elasticIp == if ips == [] then None else Some(Place(namespace, ips[0]))
  }

  ghost predicate NetDescribes(start: Things, things: Things, d: Instance, nics: seq<Nic>, namespace: string,
                               net: Net) {
    && |nics| == |NicRefs(d)|
    && NetFollows(start, things, d, SubnetsOf(nics), GroupNames(d, nics), PublicIpsOf(nics), namespace, net)
  }

  lemma NetDescribesLasts(start: Things, before: Things, after: Things, d: Instance, nics: seq<Nic>, namespace: string,
                          net: Net)
    requires Extends(before, after) && NetDescribes(start, before, d, nics, namespace, net)
    ensures NetDescribes(start, after, d, nics, namespace, net)
  {
    hide SubnetsReady, SubnetsOf, GroupNames, PublicIpsOf;
    SubnetsReadyLasts(start, before, after, d, SubnetsOf(nics), net);
  }

  lemma NetDescribesEarlier(earlier: Things, start: Things, things: Things, d: Instance, nics: seq<Nic>,
                            namespace: string, net: Net)
    requires Extends(earlier, start) && NetDescribes(start, things, d, nics, namespace, net)
    ensures NetDescribes(earlier, things, d, nics, namespace, net)
  {
    hide SubnetsReady, SubnetsOf, GroupNames, PublicIpsOf;
    SubnetsReadyEarlier(earlier, start, things, d, SubnetsOf(nics), net);
  }

  /**
    The groups of a server were made for the instance's groups, in the server's network and VPC, if its
    names have no dash and what was found under the names was filed in the VPC of its network.
   */
  lemma GroupsAreForTheServer(hash: N.Hash, start: Things, things: Things, d: Instance, nics: seq<Nic>, net: Net)
    requires var namespace := N.ComputeNamespace(hash, d.tenant, d.workspace);
             NetDescribes(start, things, d, nics, namespace, net)
    requires forall id :: id in things ==> ConverterMade(hash, things[id].spec)
    requires forall g :: g in net.groups ==> Id(GROUP, g) in things && Filed(Id(GROUP, g), things[Id(GROUP, g)].spec)
    requires '-' !in net.network && forall name :: name in GroupNames(d, nics) ==> '-' !in name
    ensures forall i :: 0 <= i < |net.groups| ==>
              IsFor(things[Id(GROUP, net.groups[i])].spec, GroupNames(d, nics)[i], net.network, net.vpc)
  {
    hide SubnetsReady, SubnetsOf, GroupNames, PublicIpsOf, MaterializedName;
    var namespace := N.ComputeNamespace(hash, d.tenant, d.workspace);
    SubnetsShareVpcIff(hash, start, things, d, SubnetsOf(nics), net);
    forall i | 0 <= i < |net.groups|
      ensures IsFor(things[Id(GROUP, net.groups[i])].spec, GroupNames(d, nics)[i], net.network, net.vpc)
    {
      assert GroupNames(d, nics)[i] in GroupNames(d, nics) && net.groups[i] in net.groups;
      FiledGroupIsForIff(namespace, GroupNames(d, nics)[i], net.network);
    }
  }

  ghost predicate AllFiled(things: Things) {
    forall id :: id in things && id.kind == GROUP ==> Filed(id, things[id].spec)
  }

  /** As long as nobody else makes groups, every pass leaves all groups filed, so the next one can rely on it. */
  lemma PassKeepsFiled(hash: N.Hash, start: Things, things: Things, d: Instance, nics: seq<Nic>, net: Net,
                       created: seq<Id>, from: nat)
    requires var namespace := N.ComputeNamespace(hash, d.tenant, d.workspace);
             && NetDescribes(start, things, d, nics, namespace, net)
             && GroupsMade(start, things, created, from, namespace, GroupNames(d, nics), net.network, net.vpc)
    requires Extends(start, things) && AllFiled(start)
    requires forall id :: id in things ==> ConverterMade(hash, things[id].spec)
    requires forall id :: id in things && id.kind == GROUP && id !in start ==> CreatedSince(created, from, id)
    ensures AllFiled(things)
  {
    hide SubnetsReady, SubnetsOf, GroupNames, PublicIpsOf, MaterializedName;
    SubnetsShareVpcIff(hash, start, things, d, SubnetsOf(nics), net);
    forall id | id in things && id.kind == GROUP && id !in start
      ensures Filed(id, things[id].spec)
    {
      var i :| from <= i < |created| && created[i] == id;
    }
  }

  /** Everything the network part refers to is there and active. */
  ghost predicate NetReady(things: Things, net: Net) {
    && net.subnets != [] && AllActive(things, SUBNET, net.subnets) && InVpc(things, net.subnets[0], net.vpc)
    && net.groups != [] && AllActive(things, GROUP, net.groups)
    && (net.elasticIp.Some? ==> IsActive(things, ELASTIC_IP, net.elasticIp.value))
  }

  lemma NetReadyLasts(before: Things, after: Things, net: Net)
    requires Extends(before, after) && NetReady(before, net)
    ensures NetReady(after, net)
  {
    AllActiveLasts(before, after, SUBNET, net.subnets);
    AllActiveLasts(before, after, GROUP, net.groups);
    if net.elasticIp.Some? {
      ActiveLasts(before, after, ELASTIC_IP, net.elasticIp.value);
    }
    assert net.subnets[0] in net.subnets;
    ActiveLasts(before, after, SUBNET, net.subnets[0]);
  }

  datatype Volumes = Volumes(boot: Place, data: seq<Place>, zone: string)

  ghost predicate VolumesDescribe(d: Instance, namespace: string, v: Volumes) {
    && LastSegment(d.boot) != "" && v.boot == Place(namespace, LastSegment(d.boot))
    && v.data == DataVolumes(namespace, d.dataVolumes)
    && (d.zone == "" || d.zone == v.zone)
  }

  ghost predicate VolumesReady(things: Things, v: Volumes) {
    && IsActive(things, VOLUME, v.boot) && things[Id(VOLUME, v.boot)].spec == VolumeSpec(v.zone)
    && AllActive(things, VOLUME, v.data)
  }

  lemma OnlyBoot(things: Things, v: Volumes)
    requires IsActive(things, VOLUME, v.boot) && things[Id(VOLUME, v.boot)].spec == VolumeSpec(v.zone) && v.data == []
    ensures VolumesReady(things, v)
  {
  }

  lemma OneMoreVolume(things: Things, v: Volumes, p: Place)
    requires VolumesReady(things, v) && IsActive(things, VOLUME, p)
    ensures VolumesReady(things, v.(data := v.data + [p]))
  {
  }

  lemma VolumesReadyLasts(before: Things, after: Things, v: Volumes)
    requires Extends(before, after) && VolumesReady(before, v)
    ensures VolumesReady(after, v)
  {
    ActiveLasts(before, after, VOLUME, v.boot);
    AllActiveLasts(before, after, VOLUME, v.data);
  }

  /** Subnets and groups put together. */
  lemma NetTogether(start: Things, things: Things, d: Instance, resources: seq<string>, net: Net, groups: seq<Place>)
    requires SubnetsReady(start, things, d, resources, net) && |net.subnets| == |resources| > 0
    requires groups != [] && AllActive(things, GROUP, groups) && net.elasticIp == None
    ensures NetReady(things, net.(groups := groups)) &&
              SubnetsReady(start, things, d, resources, net.(groups := groups))
  {
    hide LastSegment, Wanted, OneNetwork, Fits, Unambiguous;
  }

  lemma AddressAdded(start: Things, things: Things, d: Instance, resources: seq<string>, net: Net, ip: Place)
    requires NetReady(things, net) && SubnetsReady(start, things, d, resources, net) && IsActive(things, ELASTIC_IP, ip)
    ensures NetReady(things, net.(elasticIp := Some(ip))) &&
              SubnetsReady(start, things, d, resources, net.(elasticIp := Some(ip)))
  {
    hide LastSegment, Wanted, OneNetwork, Fits, Unambiguous;
  }

  lemma AllReady(things: Things, project: Place, key: Place, net: Net, v: Volumes, flavor: string)
    requires IsActive(things, PROJECT, project) && IsActive(things, KEY_PAIR, key) && NetReady(things, net) &&
               VolumesReady(things, v)
    ensures Sound(things,
              Refs(project, net.vpc, net.subnets, net.groups, net.elasticIp, key, v.boot, v.data, v.zone, flavor))
  {
  }

}
