/**
  What an instance asks its server to be attached to, said of the instance and the NICs that were read,
  without the lists the pass collects on the way.
 */
module ServerRequest {
  import opened Prelude
  import opened Inventory
  import opened Networking
  import opened Subnets
  import N = Namespaces

  // ---------- NICs ----------

  ghost predicate ReadAs(d: Instance, reference: string, nic: Nic, s: Seca) {
    var key := Scoped(d.tenant, d.workspace, LastSegment(reference));
    key in s.nics && s.nics[key] == nic
  }

  /** The NICs are those the instance names, the primary one first, as they were read one after the other. */
  ghost predicate NicsInOrder(d: Instance, nics: seq<Nic>, seen: seq<Seca>, from: nat) {
    var lead := if d.primaryNic.Some? then 1 else 0;
    && |nics| == lead + |d.additionalNics| && from + |nics| <= |seen|
    && (d.primaryNic.Some? ==> ReadAs(d, d.primaryNic.value, nics[0], seen[from]))
    && (forall i :: 0 <= i < |d.additionalNics| ==>
          ReadAs(d, d.additionalNics[i], nics[lead + i], seen[from + lead + i]))
  }

  lemma SeenInOrder(d: Instance, nics: seq<Nic>, seen: seq<Seca>, from: nat)
    requires NicsSeen(d, nics, seen, from) && |nics| == |NicRefs(d)|
    ensures NicsInOrder(d, nics, seen, from)
  {
    hide LastSegment;
    var lead := if d.primaryNic.Some? then 1 else 0;
    forall i | 0 <= i < |d.additionalNics|
      ensures ReadAs(d, d.additionalNics[i], nics[lead + i], seen[from + lead + i])
    {
      assert NicRefs(d)[lead + i] == d.additionalNics[i];
    }
  }

  // ---------- security groups ----------

  ghost predicate Names(references: seq<string>, name: string) {
    exists j :: 0 <= j < |references| && LastSegment(references[j]) == name
  }

  /** The instance itself or one of its NICs refers to a group of this name. */
  ghost predicate NamesGroup(d: Instance, nics: seq<Nic>, name: string) {
    && name != ""
    && ((d.group.Some? && LastSegment(d.group.value) == name) || (exists nic :: nic in nics && Names(nic.groups, name)))
  }

  /** One materialised group for each name, and nothing else. */
  ghost predicate GroupsAsked(d: Instance, nics: seq<Nic>, namespace: string, net: Net) {
    && (forall name :: NamesGroup(d, nics, name) ==> Place(namespace, name + "-" + net.network) in net.groups)
    && (forall g :: g in net.groups ==>
          exists name :: NamesGroup(d, nics, name) && g == Place(namespace, name + "-" + net.network))
    && (forall i, j :: 0 <= i < j < |net.groups| ==> net.groups[i] != net.groups[j])
  }

  /** Every name once, and none of them empty. */
  predicate Once(s: seq<string>) {
    "" !in s && forall i, j :: 0 <= i < j < |s| ==> s[i] != s[j]
  }

  lemma AppendedHas(s: seq<string>, v: string)
    ensures forall x :: x in AppendUnique(s, v) <==> x in s || (x == v && v != "")
    ensures Once(s) ==> Once(AppendUnique(s, v))
  {
  }

  lemma {:induction false} AppendedNames(s: seq<string>, references: seq<string>)
    ensures forall x :: x in AppendNames(s, references) <==> x in s || (x != "" && Names(references, x))
    ensures Once(s) ==> Once(AppendNames(s, references))
  {
    hide LastSegment;
    if references != [] {
      var front, last := references[..|references| - 1], references[|references| - 1];
      AppendedNames(s, front);
      AppendedHas(AppendNames(s, front), LastSegment(last));
      hide AppendUnique, Once;
      forall x
        ensures Names(references, x) <==> Names(front, x) || LastSegment(last) == x
      {
        if Names(front, x) {
          var j :| 0 <= j < |front| && LastSegment(front[j]) == x;
          assert references[j] == front[j];
        }
        if j :| 0 <= j < |references| && LastSegment(references[j]) == x {
          assert j < |front| ==> front[j] == references[j];
        }
      }
    }
  }

  lemma {:induction false} CollectedGroups(nics: seq<Nic>)
    ensures forall x :: x in GroupsOf(nics) <==> x != "" && exists nic :: nic in nics && Names(nic.groups, x)
    ensures Once(GroupsOf(nics))
  {
    if nics != [] {
      var front, last := nics[..|nics| - 1], nics[|nics| - 1];
      CollectedGroups(front);
      AppendedNames(GroupsOf(front), last.groups);
      hide AppendNames, Once, Names;
      assert nics == front + [last];
    }
  }

  /** The list that is collected has exactly the names asked for, each once. */
  lemma GroupNamesAsked(d: Instance, nics: seq<Nic>)
    ensures forall x :: x in GroupNames(d, nics) <==> NamesGroup(d, nics, x)
    ensures Once(GroupNames(d, nics))
  {
    CollectedGroups(nics);
    if d.group.Some? {
      AppendedHas(GroupsOf(nics), LastSegment(d.group.value));
    }
    hide AppendUnique, GroupsOf, Once, Names, LastSegment;
  }

  lemma GroupsAreAsked(d: Instance, nics: seq<Nic>, namespace: string, net: Net)
    requires |net.groups| == |GroupNames(d, nics)|
    requires forall i :: 0 <= i < |net.groups| ==>
               net.groups[i] == Place(namespace, MaterializedName(GroupNames(d, nics)[i], net.network))
    ensures GroupsAsked(d, nics, namespace, net)
  {
    GroupNamesAsked(d, nics);
    hide GroupNames, NamesGroup;
    var names := GroupNames(d, nics);
    forall i, j | 0 <= i < j < |net.groups|
      ensures net.groups[i] != net.groups[j]
    {
      SameNetworkSameName(names[i], names[j], net.network);
    }
    forall name | NamesGroup(d, nics, name)
      ensures Place(namespace, name + "-" + net.network) in net.groups
    {
      var i :| 0 <= i < |names| && names[i] == name;
      assert net.groups[i] in net.groups;
    }
    forall g | g in net.groups
      ensures exists name :: NamesGroup(d, nics, name) && g == Place(namespace, name + "-" + net.network)
    {
      var i :| 0 <= i < |net.groups| && net.groups[i] == g;
      assert names[i] in names && NamesGroup(d, nics, names[i]);
    }
  }

  // ---------- subnets ----------

  ghost predicate NamesSubnet(nics: seq<Nic>, chosen: seq<nat>, subnet: string) {
    exists k :: 0 <= k < |chosen| && chosen[k] < |nics| && nics[chosen[k]].subnet == subnet
  }

  predicate FirstOfItsSubnet(nics: seq<Nic>, n: nat) {
    n < |nics| && nics[n].subnet != "" && forall i :: 0 <= i < n ==> nics[i].subnet != nics[n].subnet
  }

  /** These NICs, in their order, are the first to name their subnet; every subnet that is named is among theirs. */
  ghost predicate FirstToName(nics: seq<Nic>, first: seq<nat>) {
    && (forall k :: 0 <= k < |first| ==> FirstOfItsSubnet(nics, first[k]))
    && (forall k, l :: 0 <= k < l < |first| ==> first[k] < first[l])
    && (forall nic :: nic in nics && nic.subnet != "" ==> NamesSubnet(nics, first, nic.subnet))
  }

  /** The subnets of the NICs, in the order in which they are first named, each once. */
  ghost predicate SubnetsAsked(things: Things, d: Instance, nics: seq<Nic>, subnets: seq<Place>) {
    exists first :: FirstToName(nics, first) && |subnets| == |first|
                    && forall k :: 0 <= k < |first| ==> Fits(things, d, nics[first[k]].subnet, subnets[k])
  }

  ghost predicate Chosen(nics: seq<Nic>, first: seq<nat>, resources: seq<string>) {
    && |first| == |resources|
    && forall k :: 0 <= k < |first| ==> first[k] < |nics| && nics[first[k]].subnet == resources[k]
  }

  lemma {:induction false} CollectedSubnets(nics: seq<Nic>) returns (first: seq<nat>)
    ensures FirstToName(nics, first) && Chosen(nics, first, SubnetsOf(nics))
  {
    hide FirstToName, Chosen, AppendUnique;
    first := [];
    NobodyNamed();
    if nics != [] {
      var front, last := nics[..|nics| - 1], nics[|nics| - 1];
      first := CollectedSubnets(front);
      OneMoreNamed(front, last, first, SubnetsOf(front));
      assert nics == front + [last];
      if last.subnet != "" && last.subnet !in SubnetsOf(front) {
        first := first + [|front|];
      }
    }
  }

  lemma NobodyNamed()
    ensures FirstToName([], []) && Chosen([], [], [])
  {
  }

  lemma OneMoreNamed(front: seq<Nic>, last: Nic, first: seq<nat>, resources: seq<string>)
    requires FirstToName(front, first) && Chosen(front, first, resources)
    ensures var taken := last.subnet != "" && last.subnet !in resources;
            var all := if taken then first + [|front|] else first;
            FirstToName(front + [last], all) && Chosen(front + [last], all, AppendUnique(resources, last.subnet))
  {
    var nics := front + [last];
    var all := if last.subnet != "" && last.subnet !in resources then first + [|front|] else first;
    hide NamesSubnet, FirstOfItsSubnet;
    forall k | 0 <= k < |all|
      ensures FirstOfItsSubnet(nics, all[k])
      ensures all[k] < |nics| && nics[all[k]].subnet == AppendUnique(resources, last.subnet)[k]
      ensures k < |first| ==> first[k] < |front|
    {
      if k < |first| {
        assert FirstOfItsSubnet(front, first[k]);
        StillFirst(front, last, first[k]);
      } else {
        NewIsFirst(front, last, first, resources);
      }
    }
    forall nic | nic in nics && nic.subnet != ""
      ensures NamesSubnet(nics, all, nic.subnet)
    {
      if nic in front {
        assert NamesSubnet(front, first, nic.subnet);
        StillNamed(front, last, first, all, nic.subnet, resources);
      } else {
        LastIsNamed(front, last, first, all, resources);
      }
    }
  }

  lemma StillFirst(front: seq<Nic>, last: Nic, n: nat)
    requires FirstOfItsSubnet(front, n)
    ensures FirstOfItsSubnet(front + [last], n) && n < |front| && (front + [last])[n] == front[n]
  {
    assert forall i :: 0 <= i < |front| ==> (front + [last])[i] == front[i];
  }

  lemma NewIsFirst(front: seq<Nic>, last: Nic, first: seq<nat>, resources: seq<string>)
    requires FirstToName(front, first) && Chosen(front, first, resources)
    requires last.subnet != "" && last.subnet !in resources
    ensures FirstOfItsSubnet(front + [last], |front|) && (front + [last])[|front|] == last
  {
    forall i | 0 <= i < |front|
      ensures (front + [last])[i] == front[i] && front[i].subnet != last.subnet
    {
      if front[i].subnet != "" {
        assert NamesSubnet(front, first, front[i].subnet);
        StillNamed(front, last, first, first, front[i].subnet, resources);
      }
    }
  }

  lemma StillNamed(front: seq<Nic>, last: Nic, first: seq<nat>, all: seq<nat>, subnet: string, resources: seq<string>)
    requires NamesSubnet(front, first, subnet) && first <= all && Chosen(front, first, resources)
    ensures subnet in resources && NamesSubnet(front + [last], all, subnet)
  {
    var k :| 0 <= k < |first| && first[k] < |front| && front[first[k]].subnet == subnet;
    assert all[k] == first[k] && (front + [last])[all[k]].subnet == subnet;
    assert resources[k] == subnet;
  }

  lemma LastIsNamed(front: seq<Nic>, last: Nic, first: seq<nat>, all: seq<nat>, resources: seq<string>)
    requires Chosen(front, first, resources)
    requires all == if last.subnet !in resources then first + [|front|] else first
    ensures NamesSubnet(front + [last], all, last.subnet)
  {
    var nics := front + [last];
    if last.subnet in resources {
      var k :| 0 <= k < |resources| && resources[k] == last.subnet;
      assert nics[all[k]].subnet == last.subnet;
    } else {
      assert nics[all[|first|]].subnet == last.subnet;
    }
  }

  // ---------- the address ----------

  ghost predicate NoName(references: seq<string>) {
    forall j :: 0 <= j < |references| ==> LastSegment(references[j]) == ""
  }

  /** The first name in these references. */
  ghost predicate FirstName(references: seq<string>, name: string) {
    exists j :: 0 <= j < |references| && NoName(references[..j]) && LastSegment(references[j]) == name != ""
  }

  ghost predicate NoAddress(nics: seq<Nic>) {
    forall nic :: nic in nics ==> NoName(nic.publicIps)
  }

  ghost predicate FirstAddress(nics: seq<Nic>, name: string) {
    exists i :: 0 <= i < |nics| && NoAddress(nics[..i]) && FirstName(nics[i].publicIps, name)
  }

  /** The address of the first NIC that names one, if there is one. */
  ghost predicate AddressAsked(nics: seq<Nic>, namespace: string, ip: Option<Place>) {
    match ip
    case None => NoAddress(nics)
    case Some(place) => place.namespace == namespace && FirstAddress(nics, place.name)
  }

  lemma {:induction false} AppendedFirst(s: seq<string>, references: seq<string>)
    ensures s != [] ==> AppendNames(s, references) != [] && AppendNames(s, references)[0] == s[0]
    ensures s == [] ==>
              if AppendNames(s, references) == [] then NoName(references)
              else FirstName(references, AppendNames(s, references)[0])
  {
    hide LastSegment;
    if references != [] {
      var front, last := references[..|references| - 1], references[|references| - 1];
      AppendedFirst(s, front);
      assert references == front + [last];
      if s == [] && AppendNames(s, front) != [] {
        var name := AppendNames(s, front)[0];
        var j :| 0 <= j < |front| && NoName(front[..j]) && LastSegment(front[j]) == name != "";
        assert references[..j] == front[..j] && references[j] == front[j];
      } else if s == [] && LastSegment(last) != "" {
        assert references[..|front|] == front;
        assert AppendNames(s, references) == [LastSegment(last)];
        assert LastSegment(references[|front|]) == LastSegment(last);
      }
    }
  }

  lemma {:induction false} CollectedAddress(nics: seq<Nic>)
    ensures if PublicIpsOf(nics) == [] then NoAddress(nics) else FirstAddress(nics, PublicIpsOf(nics)[0])
  {
    hide FirstAddress, FirstName, NoName, AppendNames;
    if nics != [] {
      var front, last := nics[..|nics| - 1], nics[|nics| - 1];
      CollectedAddress(front);
      AppendedFirst(PublicIpsOf(front), last.publicIps);
      assert nics == front + [last];
      if PublicIpsOf(front) != [] {
        StillFirstAddress(front, last, PublicIpsOf(front)[0]);
      } else if PublicIpsOf(nics) != [] {
        NewFirstAddress(front, last, PublicIpsOf(nics)[0]);
      }
    }
  }

  lemma StillFirstAddress(front: seq<Nic>, last: Nic, name: string)
    requires FirstAddress(front, name)
    ensures FirstAddress(front + [last], name)
  {
    hide FirstName, NoAddress;
    var i :| 0 <= i < |front| && NoAddress(front[..i]) && FirstName(front[i].publicIps, name);
    var nics := front + [last];
    assert nics[..i] == front[..i] && nics[i] == front[i];
  }

  lemma NewFirstAddress(front: seq<Nic>, last: Nic, name: string)
    requires NoAddress(front) && FirstName(last.publicIps, name)
    ensures FirstAddress(front + [last], name)
  {
    hide FirstName, NoAddress;
    var nics := front + [last];
    assert nics[..|front|] == front && nics[|front|] == last;
  }

  // ---------- all of the network part ----------

  /** Subnets, groups and address are the ones asked for; the first subnet decides about VPC and network. */
  ghost predicate AsAsked(things: Things, d: Instance, nics: seq<Nic>, namespace: string, net: Net) {
    && SubnetsAsked(things, d, nics, net.subnets)
    && net.subnets != [] && InVpc(things, net.subnets[0], net.vpc) && OfNetwork(things, net.subnets[0], net.network)
    && GroupsAsked(d, nics, namespace, net)
    && AddressAsked(nics, namespace, net.elasticIp)
  }

  lemma DescribedIsAsked(start: Things, things: Things, d: Instance, nics: seq<Nic>, namespace: string, net: Net)
    requires NetDescribes(start, things, d, nics, namespace, net)
    ensures AsAsked(things, d, nics, namespace, net)
  {
    hide LastSegment, SubnetsOf, GroupNames, PublicIpsOf, GroupsAsked, NoAddress, FirstAddress, FirstToName, Fits,
         Unambiguous;
    GroupsAreAsked(d, nics, namespace, net);
    CollectedAddress(nics);
    var first := CollectedSubnets(nics);
    assert forall k :: 0 <= k < |first| ==> Fits(things, d, SubnetsOf(nics)[k], net.subnets[k]);
    assert SubnetsAsked(things, d, nics, net.subnets);
  }

  // ---------- volumes ----------

  /** The places are those of the references that name something, in order. */
  ghost predicate PlacesNamed(places: seq<Place>, namespace: string, references: seq<string>, at: seq<nat>) {
    && |at| == |places|
    && (forall k :: 0 <= k < |at| ==>
          at[k] < |references| && LastSegment(references[at[k]]) != "" &&
            places[k] == Place(namespace, LastSegment(references[at[k]])))
    && (forall k, l :: 0 <= k < l < |at| ==> at[k] < at[l])
    && (forall i :: 0 <= i < |references| && LastSegment(references[i]) != "" ==> i in at)
  }

  ghost predicate VolumesAsked(d: Instance, namespace: string, v: Volumes) {
    && LastSegment(d.boot) != "" && v.boot == Place(namespace, LastSegment(d.boot))
    && (exists at :: PlacesNamed(v.data, namespace, d.dataVolumes, at))
    && (d.zone == "" || d.zone == v.zone)
  }

  lemma {:induction false} CollectedVolumes(namespace: string, references: seq<string>) returns (at: seq<nat>)
    ensures PlacesNamed(DataVolumes(namespace, references), namespace, references, at)
  {
    hide LastSegment, PlacesNamed;
    at := [];
    if references == [] {
      NoPlaces(namespace);
    } else {
      var front, last := references[..|references| - 1], references[|references| - 1];
      at := CollectedVolumes(namespace, front);
      OneMorePlace(DataVolumes(namespace, front), namespace, front, last, at);
      assert references == front + [last];
      if LastSegment(last) != "" {
        at := at + [|front|];
      }
    }
  }

  lemma NoPlaces(namespace: string)
    ensures PlacesNamed([], namespace, [], [])
  {
  }

  lemma OneMorePlace(places: seq<Place>, namespace: string, front: seq<string>, last: string, at: seq<nat>)
    requires PlacesNamed(places, namespace, front, at)
    ensures LastSegment(last) == "" ==> PlacesNamed(places, namespace, front + [last], at)
    ensures LastSegment(last) != "" ==>
              PlacesNamed(places + [Place(namespace, LastSegment(last))], namespace, front + [last], at + [|front|])
  {
    hide LastSegment;
    var all := at + [|front|];
    assert forall i :: 0 <= i < |front| ==> (front + [last])[i] == front[i];
    assert all[|at|] == |front| && forall i :: i in at ==> i in all;
  }

  lemma DescribedVolumesAsked(d: Instance, namespace: string, v: Volumes)
    requires VolumesDescribe(d, namespace, v)
    ensures VolumesAsked(d, namespace, v)
  {
    hide LastSegment, DataVolumes, PlacesNamed;
    var at := CollectedVolumes(namespace, d.dataVolumes);
  }

  // ---------- the server ----------

  /** Everything the server refers to is what the instance asks for. */
  ghost predicate ServerAsked(hash: N.Hash, things: Things, d: Instance, nics: seq<Nic>, seen: seq<Seca>, from: nat,
                              r: Refs) {
    var home := N.ComputeNamespace(hash, d.tenant, d.workspace);
    && NicsInOrder(d, nics, seen, from)
    && (exists network :: AsAsked(things, d, nics, home, Net(r.vpc, network, r.subnets, r.groups, r.elasticIp)))
    && r.project == Place(N.ComputeNamespace(hash, d.tenant, ""), d.workspace)
    && r.keyPair == Place(home, d.name + "-key")
    && VolumesAsked(d, home, Volumes(r.boot, r.dataVolumes, r.zone))
  }

  // ---------- what is refused ----------

  ghost predicate AnyTwice(things: Things, d: Instance, resources: seq<string>) {
    exists resource :: resource in resources && OfferedTwice(things, d, resource)
  }

  /** A NIC refers to a subnet by a bare name that means subnets of two networks. */
  ghost predicate AmbiguousNic(things: Things, d: Instance, nics: seq<Nic>) {
    exists nic :: nic in nics && OfferedTwice(things, d, nic.subnet)
  }

  lemma TwiceIsNamed(things: Things, d: Instance, nics: seq<Nic>)
    requires AnyTwice(things, d, SubnetsOf(nics))
    ensures AmbiguousNic(things, d, nics)
  {
    hide OfferedTwice, SubnetsOf, FirstToName;
    var first := CollectedSubnets(nics);
    var resource :| resource in SubnetsOf(nics) && OfferedTwice(things, d, resource);
    var k :| 0 <= k < |first| && SubnetsOf(nics)[k] == resource;
    assert nics[first[k]] in nics;
  }

  /** The instance asks for another zone than that of its boot volume. */
  predicate ZonesConflict(things: Things, d: Instance, namespace: string) {
    BootThere(things, d, namespace) && OtherZone(things, d, namespace)
  }

  // ---------- when everything is there ----------

  predicate ParentsThere(things: Things, s: Seca, d: Instance, project: Place) {
    var key := Scoped(d.tenant, "", d.workspace);
    key in s.workspaces && s.workspaces[key] && IsActive(things, PROJECT, project)
  }

  predicate NicThere(s: Seca, d: Instance, reference: string) {
    Scoped(d.tenant, d.workspace, LastSegment(reference)) in s.nics
  }

  predicate NicsThere(s: Seca, d: Instance) {
    forall i :: 0 <= i < |NicRefs(d)| ==> NicThere(s, d, NicRefs(d)[i])
  }

  function NicsOf(s: Seca, d: Instance): seq<Nic>
    requires NicsThere(s, d)
  {
    seq(|NicRefs(d)|, i requires 0 <= i < |NicRefs(d)| && NicThere(s, d, NicRefs(d)[i]) =>
      s.nics[Scoped(d.tenant, d.workspace, LastSegment(NicRefs(d)[i]))])
  }

  predicate RuleThere(s: Seca, d: Instance, reference: string) {
    Scoped(d.tenant, d.workspace, LastSegment(reference)) in s.rules
  }

  predicate RulesThere(s: Seca, d: Instance, references: seq<string>) {
    forall i :: 0 <= i < |references| ==> RuleThere(s, d, references[i])
  }

  /** The group and the rules it refers to are known. */
  predicate GroupKnown(s: Seca, d: Instance, name: string) {
    var key := Scoped(d.tenant, d.workspace, name);
    key in s.groups && RulesThere(s, d, s.groups[key].ruleRefs)
  }

  predicate GroupThere(things: Things, s: Seca, d: Instance, name: string, group: Place) {
    GroupKnown(s, d, name) && IsActive(things, GROUP, group)
  }

  predicate GroupsThere(things: Things, s: Seca, d: Instance, names: seq<string>, network: string, namespace: string) {
    forall i :: 0 <= i < |names| ==>
      GroupThere(things, s, d, names[i], Place(namespace, MaterializedName(names[i], network)))
  }

  ghost predicate GraphThere(things: Things, s: Seca, d: Instance, resources: seq<string>, names: seq<string>,
                             ips: seq<string>, namespace: string) {
    && resources != [] && AllOffered(things, d, resources)
    && names != []
    && (exists network ::
          OfferedAs(things, d, resources[0], network) && GroupsThere(things, s, d, names, network, namespace))
    && (ips == [] || IsActive(things, ELASTIC_IP, Place(namespace, ips[0])))
  }

  ghost predicate NetThere(things: Things, s: Seca, d: Instance, namespace: string) {
    && NicsThere(s, d)
    && var nics := NicsOf(s, d);
       GraphThere(things, s, d, SubnetsOf(nics), GroupNames(d, nics), PublicIpsOf(nics), namespace)
  }

  predicate KeyThere(things: Things, d: Instance, namespace: string) {
    d.sshKeys != [] && IsActive(things, KEY_PAIR, Place(namespace, d.name + "-key"))
  }

  predicate VolumeThere(things: Things, namespace: string, reference: string) {
    LastSegment(reference) == "" || IsActive(things, VOLUME, Place(namespace, LastSegment(reference)))
  }

  predicate BootThere(things: Things, d: Instance, namespace: string) {
    LastSegment(d.boot) != "" && IsActive(things, VOLUME, Place(namespace, LastSegment(d.boot)))
  }

  predicate OtherZone(things: Things, d: Instance, namespace: string)
    requires BootThere(things, d, namespace)
  {
    d.zone != "" && things[Id(VOLUME, Place(namespace, LastSegment(d.boot)))].spec != VolumeSpec(d.zone)
  }

  predicate VolumesThere(things: Things, d: Instance, namespace: string) {
    && BootThere(things, d, namespace) && !OtherZone(things, d, namespace)
    && (forall i :: 0 <= i < |d.dataVolumes| ==> VolumeThere(things, namespace, d.dataVolumes[i]))
  }

  predicate SkuThere(s: Seca, d: Instance) {
    LastSegment(d.sku) != "" && Scoped(d.tenant, "", LastSegment(d.sku)) in s.skus
  }

  predicate FlavorThere(s: Seca, d: Instance, flavorOf: Sku -> Option<string>) {
    SkuThere(s, d) && flavorOf(s.skus[Scoped(d.tenant, "", LastSegment(d.sku))]).Some?
  }

  /** Everything the server of the instance will refer to is there and active. */
  ghost predicate AllThere(things: Things, s: Seca, d: Instance, flavorOf: Sku -> Option<string>, project: Place,
                           namespace: string) {
    && ParentsThere(things, s, d, project)
    && NetThere(things, s, d, namespace)
    && KeyThere(things, d, namespace)
    && VolumesThere(things, d, namespace)
    && FlavorThere(s, d, flavorOf)
  }

  /** Objects that are being created make no difference. */
  lemma StillThere(before: Things, after: Things, d: Instance, namespace: string)
    requires OnlyNew(before, after)
    ensures KeyThere(after, d, namespace) <==> KeyThere(before, d, namespace)
    ensures VolumesThere(after, d, namespace) <==> VolumesThere(before, d, namespace)
  {
    hide LastSegment, OnlyNew;
    SameActive(before, after, KEY_PAIR, Place(namespace, d.name + "-key"));
    SameActive(before, after, VOLUME, Place(namespace, LastSegment(d.boot)));
    forall i | 0 <= i < |d.dataVolumes|
      ensures VolumeThere(after, namespace, d.dataVolumes[i]) <==> VolumeThere(before, namespace, d.dataVolumes[i])
    {
      SameActive(before, after, VOLUME, Place(namespace, LastSegment(d.dataVolumes[i])));
    }
  }

  lemma OfferedOnce(things: Things, d: Instance, resource: string, network: string)
    requires OfferedAs(things, d, resource, network)
    ensures forall other :: OfferedAs(things, d, resource, other) ==> other == network
  {
    hide LastSegment, Wanted;
  }
}
