/**
  Creating a server at the provider for an instance. The pass gathers what the server refers to, waits
  while any of it is not active, and only then creates the server; it is repeated until the server
  itself is active. Others act before every request.
 */
module InstanceCreate {
  import opened Prelude
  import opened Inventory
  import opened Networking
  import opened References
  import opened RuleExpansion
  import opened ServerRequest
  import opened Subnets
  import opened Tags
  import N = Namespaces
  import G = SecurityGroups

  /** The outcome of a step: it can go on, has to wait, or failed. */
  datatype Step<+T> = Go(value: T) | StillProcessing | Failed

  datatype Created = New | Existed | Error

  /** Between two requests: the operator moves phases, others create objects, and the request may fail. */
  datatype Weather = Weather(progress: map<Id, Phase>, arrivals: Things, seca: Option<Seca>, fault: N.Fault)

  method SubnetsIn(things: Things) returns (list: seq<Subnet>)
    requires WellTyped(things)
    ensures ListsSubnets(things, list)
  {
    list := [];
    var todo := set id | id in things && id.kind == SUBNET;
    while todo != {}
      invariant forall id :: id in todo ==> id in things && id.kind == SUBNET
      invariant forall s :: s in list ==> Stands(things, s)
      invariant forall id :: id in things && id.kind == SUBNET && id !in todo ==> Lists(list, id.place)
      decreases |todo|
    {
      var id :| id in todo;
      var thing := things[id];
      assert Typed(id.kind, thing.spec);
      var s := Subnet(id.place.namespace, id.place.name, thing.spec.tenant, thing.spec.workspace, thing.spec.network,
                      thing.spec.vpc, thing.phase == Active);
      OneMoreListed(list, s);
      list, todo := list + [s], todo - {id};
    }
  }

  /** What others do before the next request, and how that fares. */
  function Next(weather: seq<Weather>): Weather {
    if weather == [] then Weather(map[], map[], None, N.Fine) else weather[0]
  }

  function AfterOthers(things: Things, weather: seq<Weather>): Things {
    if weather == [] then things else Joined(Moved(things, Next(weather).progress), Next(weather).arrivals)
  }

  /** Nobody else acts, and no request fails. */
  predicate Calm(weather: seq<Weather>) {
    weather == []
  }

  // ---------- the handler ----------

  class Handler {
    const hash: N.Hash
    const flavorOf: Sku -> Option<string>
    var seca: Seca
    var things: Things
    var weather: seq<Weather>
    // What this control plane created at the provider, in order.
    ghost var created: seq<Id>
    // Its own resources as they were at each read of them, in order.
    ghost var seen: seq<Seca>
    // How many requests to the provider failed.
    ghost var failures: nat

    constructor (hash: N.Hash, flavorOf: Sku -> Option<string>, seca: Seca, things: Things, weather: seq<Weather>)
      requires WellTyped(things)
      ensures Safe() && this.hash == hash && this.flavorOf == flavorOf
      ensures this.seca == seca && this.things == things && this.weather == weather && created == [] && seen == []
    {
      this.hash, this.flavorOf, this.seca, this.things, this.weather := hash, flavorOf, seca, things, weather;
      created, seen, failures := [], [], 0;
    }

    /** Every server that was created is sound, and no object was created twice. */
    ghost predicate Safe()
      reads this
    {
      && WellTyped(things) && MadeSound(things, created)
      && (forall id :: id in created ==> id in things)
      && (forall i, j :: 0 <= i < j < |created| ==> created[i] != created[j])
    }

    /** In calm weather: nothing changed, but for objects that are now being created. */
    ghost predicate StillCalm(start: Things, known: Seca)
      reads this
    {
      Calm(weather) && seca == known && OnlyNew(start, things)
    }

    /** In calm weather: nothing changed at all. */
    ghost predicate Untouched(start: Things, known: Seca)
      reads this
    {
      Calm(weather) && seca == known && things == start
    }

    // Single requests; before each of them, others act.

    method Tick(ghost provider: bool) returns (fault: N.Fault)
      requires Safe()
      modifies this
      ensures Safe() && Extends(old(things), things) && created == old(created) && seen == old(seen)
      ensures fault == Next(old(weather)).fault && things == AfterOthers(old(things), old(weather))
      ensures weather == if old(weather) == [] then [] else old(weather)[1..]
      ensures seca == if Next(old(weather)).seca.Some? then Next(old(weather)).seca.value else old(seca)
      ensures failures == old(failures) + if provider && !fault.Fine? then 1 else 0
      ensures Calm(old(weather)) ==> fault.Fine? && Untouched(old(things), old(seca))
    {
      if |weather| == 0 {
        return N.Fine;
      }
      var w := weather[0];
      MovingExtends(things, w.progress);
      JoiningExtends(Moved(things, w.progress), w.arrivals);
      ExtendsAcross(things, Moved(things, w.progress), Joined(Moved(things, w.progress), w.arrivals));
      MadeSoundLasts(things, Joined(Moved(things, w.progress), w.arrivals), created);
      things := Joined(Moved(things, w.progress), w.arrivals);
      seca := if w.seca.Some? then w.seca.value else seca;
      weather := weather[1..];
      failures := failures + if provider && !w.fault.Fine? then 1 else 0;
      return w.fault;
    }

    /** A read of the control plane's own resources; any error means waiting. */
    method Observe() returns (s: Option<Seca>)
      requires Safe()
      modifies this
      ensures Safe() && Extends(old(things), things) && created == old(created)
      ensures seen == old(seen) + [seca] && s == if Next(old(weather)).fault.Fine? then Some(seca) else None
      ensures failures == old(failures)
      ensures Calm(old(weather)) ==> s.Some? && Untouched(old(things), old(seca))
    {
      var fault := Tick(false);
      seen := seen + [seca];
      s := if fault.Fine? then Some(seca) else None;
    }

    method CreateThing(id: Id, spec: Spec) returns (r: Created)
      requires Safe() && Typed(id.kind, spec)
      requires spec.ServerSpec? ==> SoundServer(things, spec)
      modifies this
      ensures Safe() && Extends(old(things), things) && seen == old(seen)
      ensures created == old(created)
              || (created == old(created) + [id] && id !in old(things) && things[id] == Thing(Creating, spec))
      ensures r.New? ==> created == old(created) + [id]
      ensures r.New? || r.Existed? ==> id in things
      ensures var fault, before := Next(old(weather)).fault, AfterOthers(old(things), old(weather));
              && (fault.Refused? || id in before ==> things == before)
              && (!fault.Refused? && id !in before ==> things == before[id := Thing(Creating, spec)])
              && r == if !fault.Fine? then Error else if id in before then Existed else New
      ensures failures == old(failures) + if r == Error then 1 else 0
      ensures Calm(old(weather)) ==> r != Error && StillCalm(old(things), old(seca))
    {
      var fault := Tick(true);
      if fault.Refused? {
        return Error;
      }
      if id in things {
        return if fault.Fine? then Existed else Error;
      }
      if spec.ServerSpec? {
        SoundLasts(old(things), things, spec.refs);
      }
      ExtendsAcross(old(things), things, things[id := Thing(Creating, spec)]);
      AddThing(id, spec);
      return if fault.Fine? then New else Error;
    }

    method AddThing(id: Id, spec: Spec)
      requires Safe() && Typed(id.kind, spec) && id !in things && (spec.ServerSpec? ==> SoundServer(things, spec))
      modifies this`things, this`created
      ensures Safe() && Extends(old(things), things)
      ensures things == old(things)[id := Thing(Creating, spec)] && created == old(created) + [id]
    {
      hide Sound, Extends;
      AddingExtends(things, id, Thing(Creating, spec));
      MadeSoundLasts(things, things[id := Thing(Creating, spec)], created);
      if spec.ServerSpec? {
        SoundLasts(things, things[id := Thing(Creating, spec)], spec.refs);
      }
      things := things[id := Thing(Creating, spec)];
      created := created + [id];
    }

    /** Loads an object; one that is not there is waited for. */
    method Load(id: Id) returns (r: Step<Thing>)
      requires Safe()
      modifies this
      ensures Safe() && Extends(old(things), things) && created == old(created) && seen == old(seen)
      ensures r.Go? ==> id in things && r.value == things[id]
      ensures r.Failed? <==> !Next(old(weather)).fault.Fine?
      ensures failures == old(failures) + if r.Failed? then 1 else 0
      ensures Calm(old(weather)) ==>
                Untouched(old(things), old(seca)) && r == if id in things then Go(things[id]) else StillProcessing
    {
      var fault := Tick(true);
      if !fault.Fine? {
        return Failed;
      }
      r := if id in things then Go(things[id]) else StillProcessing;
    }

    method LoadActive(kind: Kind, place: Place) returns (r: Step<Thing>)
      requires Safe()
      modifies this
      ensures Safe() && Extends(old(things), things) && created == old(created) && seen == old(seen)
      ensures r.Go? ==> IsActive(things, kind, place) && r.value == things[Id(kind, place)]
      ensures r.Failed? <==> !Next(old(weather)).fault.Fine?
      ensures failures == old(failures) + if r.Failed? then 1 else 0
      ensures Calm(old(weather)) ==>
                Untouched(old(things), old(seca)) && !r.Failed? && (r.Go? <==> IsActive(things, kind, place))
    {
      r := Load(Id(kind, place));
      if r.Go? && r.value.phase != Active {
        return StillProcessing;
      }
    }

    // ---------- NICs and subnets ----------

    method AppendSegments(names: seq<string>, resources: seq<string>) returns (all: seq<string>)
      ensures all == AppendNames(names, resources)
    {
      all := names;
      for i := 0 to |resources|
        invariant all == AppendNames(names, resources[..i])
      {
        assert resources[..i + 1][..i] == resources[..i];
        all := AppendUnique(all, LastSegment(resources[i]));
      }
      assert resources[..|resources|] == resources;
    }

    static ghost predicate NicsRead(s: Seca, d: Instance, refs: seq<string>, nics: seq<Nic>) {
      && |nics| <= |refs|
      && forall i :: 0 <= i < |nics| ==> ReadAs(d, refs[i], nics[i], s)
    }

    static lemma AllRead(s: Seca, d: Instance, nics: seq<Nic>)
      requires NicsThere(s, d) && |nics| == |NicRefs(d)|
      ensures NicsRead(s, d, NicRefs(d), nics) ==> nics == NicsOf(s, d)
    {
      hide LastSegment;
    }

    /** A NIC that is not there yet stops the pass. */
    method ResolveNics(d: Instance) returns (r: Step<(seq<string>, seq<string>, seq<string>)>, ghost nics: seq<Nic>)
      requires Safe()
      modifies this
      ensures Safe() && Extends(old(things), things) && created == old(created)
      ensures r.Go? ==> NicsSeen(d, nics, seen, |old(seen)|)
      ensures old(seen) <= seen
      ensures r.Go? ==> |nics| == |NicRefs(d)| && r.value == (SubnetsOf(nics), GroupsOf(nics), PublicIpsOf(nics))
      ensures !r.Failed?
      ensures failures == old(failures)
      ensures Calm(old(weather)) ==> Untouched(old(things), old(seca)) && (r.Go? <==> NicsThere(seca, d))
      ensures Calm(old(weather)) && r.Go? ==> nics == NicsOf(seca, d)
    {
      hide Safe, LastSegment, SubnetsOf, GroupsOf, PublicIpsOf, NicsSeen, Extends, AppendNames, AppendUnique,
           AfterOthers;
      NothingNew(things);
      NoNicsYet(d, seen);
      var refs := if d.primaryNic.Some? then [d.primaryNic.value] + d.additionalNics else d.additionalNics;
      assert refs == NicRefs(d);
      var subnets, groups, ips := [], [], [];
      nics := [];
      for i := 0 to |refs|
        invariant Safe() && Extends(old(things), things) && created == old(created)
        invariant failures == old(failures)
        invariant |nics| == i && NicsSeen(d, nics, seen, |old(seen)|) && old(seen) <= seen && |seen| == |old(seen)| + i
        invariant subnets == SubnetsOf(nics) && groups == GroupsOf(nics) && ips == PublicIpsOf(nics)
        invariant Calm(old(weather)) ==> Untouched(old(things), old(seca)) && NicsRead(seca, d, refs, nics)
      {
        ghost var before, known := things, seen;
        var s := Observe();
        ExtendsAcross(old(things), before, things);
        var key := Scoped(d.tenant, d.workspace, LastSegment(refs[i]));
        if s.None? || key !in s.value.nics {
          assert Calm(old(weather)) ==> !NicThere(seca, d, refs[i]);
          return StillProcessing, nics;
        }
        var nic := s.value.nics[key];
        OneMoreNicCollected(nics, nic);
        subnets := AppendUnique(subnets, nic.subnet);
        groups := AppendSegments(groups, nic.groups);
        ips := AppendSegments(ips, nic.publicIps);
        OneMoreNic(d, nics, known, seen, |old(seen)|, nic);
        nics := nics + [nic];
      }
      if NicsThere(seca, d) {
        AllRead(seca, d, nics);
      }
      return Go((subnets, groups, ips)), nics;
    }

    /** The subnets in the store, in no particular order. */
    method ListSubnets() returns (r: Step<seq<Subnet>>)
      requires Safe()
      modifies this
      ensures Safe() && Extends(old(things), things) && created == old(created) && seen == old(seen)
      ensures if Next(old(weather)).fault.Fine? then r.Go? && ListsSubnets(things, r.value) else r.Failed?
      ensures failures == old(failures) + if r.Failed? then 1 else 0
      ensures Calm(old(weather)) ==> r.Go? && Untouched(old(things), old(seca))
    {
      var fault := Tick(true);
      if !fault.Fine? {
        return Failed;
      }
      var list := SubnetsIn(things);
      return Go(list);
    }

    method ResolveSubnet(d: Instance, resource: string) returns (r: Step<Subnet>)
      requires Safe()
      modifies this
      ensures Safe() && Extends(old(things), things) && created == old(created) && seen == old(seen)
      ensures r.Go? ==> IsActive(things, SUBNET, SubnetPlace(r.value)) && Stands(things, r.value)
                        && Fits(things, d, resource, SubnetPlace(r.value))
                        && (Wanted(resource) == "" ==> OneNetwork(things, d, LastSegment(resource), r.value.network))
      ensures failures == old(failures) || (r.Failed? && failures == old(failures) + 1)
      ensures r.Failed? && failures == old(failures) ==> OfferedTwice(things, d, resource)
      ensures Calm(old(weather)) ==>
                && Untouched(old(things), old(seca))
                && (r.Go? <==> OfferedIn(things, d, resource)) && (r.Failed? <==> OfferedTwice(things, d, resource))
                && (r.Go? ==> OfferedAs(things, d, resource, r.value.network))
    {
      var list := ListSubnets();
      match list
      case StillProcessing => r := StillProcessing;
      case Failed => r := Failed;
      case Go(subnets) =>
        hide Split, NetworkOf, LastSegment;
        var found := Subnets.ResolveSubnet(subnets, d.tenant, d.workspace, resource);
        ListAnswers(things, d, subnets, resource, found);
        match found
        case Resolved(subnet) => r := Go(subnet);
        case Ambiguous(_, _) => r := Failed;
        case NotReady => r := StillProcessing;
    }

    /** The first subnet decides about VPC and network. */
    method ResolveSubnets(d: Instance, resources: seq<string>) returns (r: Step<Net>)
      requires Safe() && resources != []
      modifies this
      ensures Safe() && Extends(old(things), things) && created == old(created) && seen == old(seen)
      ensures r.Go? ==> SubnetsReady(old(things), things, d, resources, r.value) && |r.value.subnets| == |resources|
                        && r.value.groups == [] && r.value.elasticIp == None
      ensures failures == old(failures) || (r.Failed? && failures == old(failures) + 1)
      ensures r.Failed? && failures == old(failures) ==> AnyTwice(things, d, resources)
      ensures Calm(old(weather)) ==>
                && Untouched(old(things), old(seca)) && (r.Go? <==> AllOffered(things, d, resources))
                && (r.Go? ==> OfferedAs(things, d, resources[0], r.value.network))
    {
      hide Safe, LastSegment, Wanted, OneNetwork, Fits, OfferedIn, OfferedAs, OfferedTwice, Stands;
      var net := Net(Place("", ""), "", [], [], None);
      for i := 0 to |resources|
        invariant Safe() && Extends(old(things), things) && created == old(created) && seen == old(seen)
        invariant failures == old(failures)
        invariant |net.subnets| == i && net.groups == [] && net.elasticIp == None
        invariant SubnetsReady(old(things), things, d, resources, net)
        invariant Calm(old(weather)) ==> Untouched(old(things), old(seca)) && AllOffered(things, d, resources[..i])
        invariant Calm(old(weather)) && i > 0 ==> OfferedAs(things, d, resources[0], net.network)
      {
        assert resources[..i + 1] == resources[..i] + [resources[i]];
        ghost var before := things;
        var subnet := ResolveSubnet(d, resources[i]);
        ExtendsAcross(old(things), before, things);
        SubnetsReadyLasts(old(things), before, things, d, resources, net);
        match subnet
        case StillProcessing => return StillProcessing;
        case Failed => return Failed;
        case Go(s) =>
          ghost var known := net;
          net := net.(subnets := net.subnets + [SubnetPlace(s)]);
          if i == 0 {
            net := net.(vpc := s.vpc, network := s.network);
          }
          OneMoreSubnet(old(things), things, d, resources, known, net, s);
      }
      assert resources[..|resources|] == resources;
      return Go(net);
    }

    // ---------- security groups ----------

    /** Creates every rule that is not there yet. */
    method CreateRules(rules: seq<SecurityRule>) returns (ok: bool)
      requires Safe()
      modifies this
      ensures Safe() && Extends(old(things), things) && Grown(old(created), created, {RULE}) && seen == old(seen)
      ensures RulesMade(old(things), things, created, |old(created)|, rules)
      ensures ok ==> RulesExist(things, rules)
      ensures failures == old(failures) + if !ok then 1 else 0
      ensures Calm(old(weather)) ==> ok && StillCalm(old(things), old(seca))
    {
      hide Safe, RulesMade, OnlyNew, AfterOthers, Next;
      NothingNew(things);
      NothingMade(things, things, created);
      for i := 0 to |rules|
        invariant Safe() && Extends(old(things), things) && Grown(old(created), created, {RULE}) && seen == old(seen)
        invariant RulesMade(old(things), things, created, |old(created)|, rules)
        invariant failures == old(failures)
        invariant Calm(old(weather)) ==> StillCalm(old(things), old(seca))
        invariant forall j :: 0 <= j < i ==> RuleId(rules[j]) in things
      {
        ghost var before, known := things, created;
        var r := CreateThing(RuleId(rules[i]), RuleSpecOf(rules[i]));
        ExtendsAcross(old(things), before, things);
        if Calm(old(weather)) {
          OnlyNewAcross(old(things), before, things);
        }
        RulesMadeLast(old(things), before, things, known, |old(created)|, rules);
        if created != known {
          OneMoreRuleMade(old(things), things, known, |old(created)|, rules, i);
        }
        if r == Error {
          return false;
        }
      }
      return true;
    }

    method LoadStandaloneRules(d: Instance, refs: seq<string>) returns (specs: Option<seq<RuleSpec>>)
      requires Safe()
      modifies this
      ensures Safe() && Extends(old(things), things) && created == old(created) && old(seen) <= seen
      ensures specs.Some? ==> RulesSeen(d, refs, specs.value, seen, |old(seen)|)
      ensures failures == old(failures)
      ensures Calm(old(weather)) ==> Untouched(old(things), old(seca)) && (specs.Some? <==> RulesThere(seca, d, refs))
    {
      var all := [];
      for i := 0 to |refs|
        invariant Safe() && Extends(old(things), things) && created == old(created) && old(seen) <= seen
        invariant Calm(old(weather)) ==> Untouched(old(things), old(seca)) && RulesThere(seca, d, refs[..i])
        invariant failures == old(failures)
        invariant |all| == i && RulesSeen(d, refs[..i], all, seen, |old(seen)|) && |seen| == |old(seen)| + i
      {
        ghost var before, known := things, seen;
        var s := Observe();
        ExtendsAcross(old(things), before, things);
        var key := Scoped(d.tenant, d.workspace, LastSegment(refs[i]));
        if s.None? || key !in s.value.rules {
          assert Calm(old(weather)) ==> !RuleThere(seca, d, refs[i]);
          return None;
        }
        OneMoreRuleSeen(d, refs, i, all, known, seen, |old(seen)|);
        all := all + [Normalized(s.value.rules[key].rule, s.value.rules[key].labels)];
      }
      assert refs[..|refs|] == refs;
      return Some(all);
    }

    /**
      The group is handed out only when it is active and all rules of the expansion exist, those of the
      inline rules first.
     */
    method MaterializeSecurityGroup(d: Instance, network: string, name: string, namespace: string, vpc: Place)
      returns (r: Step<Place>, ghost source: SecaGroup, ghost referenced: seq<RuleSpec>)
      requires Safe()
      modifies this
      ensures Safe() && Extends(old(things), things) && Grown(old(created), created, {GROUP, RULE}) && old(seen) <= seen
      ensures var group := MaterializedName(name, network);
              var all := Expansion(InlineSpecs(source.rules, source.labels) + referenced, group, namespace);
              && GroupMade(old(things), things, created, |old(created)|, Id(GROUP, Place(namespace, group)),
                           GroupSpec(d.tenant, name, network, vpc, TagsOf(source.labels)))
              && RulesMade(old(things), things, created, |old(created)|, all)
              && (r.Go? ==>
                    && r.value == Place(namespace, group) && IsActive(things, GROUP, r.value)
                    && GroupSeen(d, name, source, seen, |old(seen)|)
                    && RulesSeen(d, source.ruleRefs, referenced, seen, |old(seen)| + 1)
                    && RulesExist(things, all))
      ensures failures == old(failures) + if r.Failed? then 1 else 0
      ensures Calm(old(weather)) ==> StillCalm(old(things), old(seca)) && !r.Failed?
      ensures Calm(old(weather)) ==>
                (r.Go? <==>
                  GroupThere(old(things), seca, d, name, Place(namespace, MaterializedName(name, network))))
      // Once the group is known, it and its rules are made.
      ensures Calm(old(weather)) && GroupKnown(seca, d, name) ==>
                var group := MaterializedName(name, network);
                && Id(GROUP, Place(namespace, group)) in things && GroupSeen(d, name, source, seen, |old(seen)|)
                && RulesExist(things,
                              Expansion(InlineSpecs(source.rules, source.labels) + referenced, group, namespace))
    {
      hide Safe, Expansion, Combos, LastSegment, TagsOf, GroupMade, RulesMade, RulesSeen, GroupSeen, RulesExist,
          IsActive, OnlyNew, RulesThere, Next, AfterOthers;
      source, referenced := SecaGroup([], [], map[]), [];
      var group := MaterializedName(name, network);
      var id := Id(GROUP, Place(namespace, group));
      var s := Observe();
      var key := Scoped(d.tenant, d.workspace, name);
      NothingNew(things);
      if s.None? || key !in s.value.groups {
        NothingMade(old(things), things, created);
        return StillProcessing, source, referenced;
      }
      var known := s.value.groups[key];
      source := known;
      var tags := G.CanonicalTags(known.labels);
      var spec := GroupSpec(d.tenant, name, network, vpc, tags);
      ghost var one, looked := things, seen;
      var made := CreateThing(id, spec);
      ExtendsAcross(old(things), one, things);
      GroupJustMade(old(things), things, old(created), created, id, spec);
      if made == Error {
        return Failed, source, referenced;
      }
      ghost var two := things;
      var standalone := LoadStandaloneRules(d, known.ruleRefs);
      ExtendsAcross(old(things), two, things);
      GroupJustMade(old(things), things, old(created), created, id, spec);
      GroupStillSeen(d, name, source, looked, seen, |old(seen)|);
      if standalone.None? {
        return StillProcessing, source, referenced;
      }
      referenced := standalone.value;
      ghost var three := things;
      if Calm(old(weather)) {
        SameActive(old(things), three, GROUP, id.place);
      }
      var ok, observed := MaterializeRules(known, standalone.value, id, old(things), old(created), spec);
      ExtendsAcross(old(things), three, things);
      if Calm(old(weather)) {
        OnlyNewAcross(old(things), three, things);
      }
      if !ok || observed.Failed? {
        return Failed, source, referenced;
      }
      r := if observed.Go? then Go(id.place) else StillProcessing;
    }

    /** The second half: the rules are created, and the group is waited for. */
    method MaterializeRules(group: SecaGroup, referenced: seq<RuleSpec>, id: Id,
                            ghost start: Things, ghost before: seq<Id>, ghost spec: Spec)
      returns (ok: bool, observed: Step<Thing>)
      requires Safe() && Extends(start, things)
      requires Grown(before, created, {GROUP}) && GroupMade(start, things, created, |before|, id, spec)
      modifies this
      ensures Safe() && Extends(old(things), things) && Grown(before, created, {GROUP, RULE}) && seen == old(seen)
      ensures var specs := InlineSpecs(group.rules, group.labels) + referenced;
              var all := Expansion(specs, id.place.name, id.place.namespace);
              && GroupMade(start, things, created, |before|, id, spec)
              && RulesMade(start, things, created, |before|, all)
              && (ok && observed.Go? ==> IsActive(things, id.kind, id.place) && RulesExist(things, all))
      ensures failures == old(failures) + if !ok || observed.Failed? then 1 else 0
      ensures Calm(old(weather)) ==>
                && StillCalm(old(things), old(seca)) && ok && !observed.Failed?
                && (observed.Go? <==> IsActive(old(things), id.kind, id.place))
                && RulesExist(things, Expansion(InlineSpecs(group.rules, group.labels) + referenced, id.place.name,
                                                id.place.namespace))
    {
      hide Safe, Expansion, Combos, RulesMade, GroupMade, IsActive, OnlyNew;
      var inline := NormalizeInlineRules(group.rules, group.labels);
      assert inline == InlineSpecs(group.rules, group.labels);
      var rules := BuildSecurityRules(inline + referenced, id.place.name, id.place.namespace);
      ghost var known := created;
      ok := CreateRules(rules);
      GrownAcross(before, known, created, {GROUP}, {GROUP, RULE});
      RulesMadeEarlier(start, old(things), things, known, created, |before|, rules);
      GroupMadeLast(start, old(things), things, known, created, |before|, id, spec);
      observed := StillProcessing;
      if ok {
        ghost var four := things;
        if Calm(old(weather)) {
          SameActive(old(things), four, id.kind, id.place);
        }
        observed := LoadActive(id.kind, id.place);
        ExtendsAcross(old(things), four, things);
        RulesLast(four, things, rules);
        RulesMadeLast(start, four, things, created, |before|, rules);
        GroupMadeLast(start, four, things, created, created, |before|, id, spec);
      }
    }

    method MaterializeGroups(d: Instance, network: string, names: seq<string>, namespace: string, vpc: Place)
      returns (r: Step<seq<Place>>)
      requires Safe()
      modifies this
      ensures Safe() && Extends(old(things), things) && Grown(old(created), created, {GROUP, RULE}) && old(seen) <= seen
      ensures GroupsMade(old(things), things, created, |old(created)|, namespace, names, network, vpc)
      ensures r.Go? ==> AllActive(things, GROUP, r.value) && |r.value| == |names|
                        && forall i :: 0 <= i < |names| ==>
                            r.value[i] == Place(namespace, MaterializedName(names[i], network))
      ensures failures == old(failures) + if r.Failed? then 1 else 0
      ensures Calm(old(weather)) ==>
                && StillCalm(old(things), old(seca)) && !r.Failed?
                && (r.Go? <==> GroupsThere(old(things), seca, d, names, network, namespace))
    {
      hide Safe, Expansion, Combos, RulesExist, RulesMade, GroupMade, GroupsMade, RulesSeen, GroupSeen, IsActive,
          TagsOf, OnlyNew, GroupKnown;
      NothingNew(things);
      var groups: seq<Place> := [];
      NoGroupsMade(things, things, created);
      for i := 0 to |names|
        invariant Safe() && Extends(old(things), things) && Grown(old(created), created, {GROUP, RULE}) &&
                    old(seen) <= seen
        invariant GroupsMade(old(things), things, created, |old(created)|, namespace, names, network, vpc)
        invariant failures == old(failures)
        invariant |groups| == i && AllActive(things, GROUP, groups)
        invariant forall j :: 0 <= j < i ==> groups[j] == Place(namespace, MaterializedName(names[j], network))
        invariant Calm(old(weather)) ==>
                    && StillCalm(old(things), old(seca))
                    && GroupsThere(old(things), seca, d, names[..i], network, namespace)
      {
        ghost var before, known := things, created;
        var step, source, _ := MaterializeSecurityGroup(d, network, names[i], namespace, vpc);
        OneMoreGroupsMade(old(things), before, things, known, created, |old(created)|, namespace, names, i,
                          network, vpc, GroupSpec(d.tenant, names[i], network, vpc, TagsOf(source.labels)));
        ExtendsAcross(old(things), before, things);
        GrownAcross(old(created), known, created, {GROUP, RULE}, {GROUP, RULE});
        AllActiveLasts(before, things, GROUP, groups);
        if Calm(old(weather)) {
          OnlyNewAcross(old(things), before, things);
          SameActive(old(things), before, GROUP, Place(namespace, MaterializedName(names[i], network)));
        }
        match step
        case StillProcessing => return StillProcessing;
        case Failed => return Failed;
        case Go(group) => groups := groups + [group];
      }
      assert names[..|names|] == names;
      return Go(groups);
    }

    method ResolveNetworking(d: Instance) returns (r: Step<Net>, ghost nics: seq<Nic>)
      requires Safe()
      modifies this
      ensures Safe() && Extends(old(things), things) && Grown(old(created), created, {GROUP, RULE}) && old(seen) <= seen
      ensures r.Go? ==> NicsSeen(d, nics, seen, |old(seen)|)
      ensures r.Go? ==> NetReady(things, r.value) && NetDescribes(old(things), things, d, nics, Home(d), r.value)
      ensures r.Go? ==> GroupsMade(old(things), things, created, |old(created)|, Home(d), GroupNames(d, nics),
                                   r.value.network, r.value.vpc)
      // What this comes to, said without the collected lists.
      ensures r.Go? ==>
                && NicsInOrder(d, nics, seen, |old(seen)|)
                && AsAsked(things, d, nics, N.ComputeNamespace(hash, d.tenant, d.workspace), r.value)
      ensures failures == old(failures) || (r.Failed? && failures == old(failures) + 1)
      ensures r.Failed? && failures == old(failures) ==> AmbiguousNic(things, d, nics)
      ensures Calm(old(weather)) ==>
                && StillCalm(old(things), old(seca))
                && (r.Go? <==> NetThere(old(things), seca, d, N.ComputeNamespace(hash, d.tenant, d.workspace)))
    {
      hide GraphThere, NicsThere, AsAsked, NicsInOrder, OnlyNew, AnyTwice, AmbiguousNic;
      hide Safe, LastSegment, SubnetsOf, GroupsOf, PublicIpsOf, NicsSeen, SubnetsReady, NetReady, GroupsMade;
      var graph;
      graph, nics := ResolveNics(d);
      NothingNew(things);
      if !graph.Go? {
        return StillProcessing, nics;
      }
      var (resources, groupsOfNics, ips) := graph.value;
      var names := if d.group.Some? then AppendUnique(groupsOfNics, LastSegment(d.group.value)) else groupsOfNics;
      ghost var one, sawNics := things, seen;
      r := ResolveGraphOf(d, resources, names, ips);
      ExtendsAcross(old(things), one, things);
      if AnyTwice(things, d, resources) {
        TwiceIsNamed(things, d, nics);
      }
      ReadsLast(d, nics, sawNics, seen, |old(seen)|);
      if r.Go? {
        assert NetDescribes(one, things, d, nics, Home(d), r.value);
        NetDescribesEarlier(old(things), one, things, d, nics, Home(d), r.value);
        GroupsMadeLast(old(things), one, things, things, created, created, |old(created)|, Home(d), names,
                       r.value.network, r.value.vpc);
        SeenInOrder(d, nics, seen, |old(seen)|);
        DescribedIsAsked(old(things), things, d, nics, Home(d), r.value);
      }
    }

    /** Subnets, groups and address, once the NICs are known. */
    method ResolveGraphOf(d: Instance, resources: seq<string>, names: seq<string>, ips: seq<string>)
      returns (r: Step<Net>)
      requires Safe()
      modifies this
      ensures Safe() && Extends(old(things), things) && Grown(old(created), created, {GROUP, RULE}) && old(seen) <= seen
      ensures r.Go? ==> NetReady(things, r.value)
                        && NetFollows(old(things), things, d, resources, names, ips, Home(d), r.value)
      ensures r.Go? ==>
                GroupsMade(old(things), things, created, |old(created)|, Home(d), names, r.value.network, r.value.vpc)
      ensures failures == old(failures) || (r.Failed? && failures == old(failures) + 1)
      ensures r.Failed? && failures == old(failures) ==> AnyTwice(things, d, resources)
      ensures Calm(old(weather)) ==>
                && StillCalm(old(things), old(seca))
                && (r.Go? <==> GraphThere(old(things), seca, d, resources, names, ips, Home(d)))
    {
      hide Safe, LastSegment, SubnetsReady, IsActive, AllActive, InVpc, GroupsMade, OnlyNew, AllOffered, OfferedAs,
           GroupsThere;
      NothingNew(things);
      if resources == [] {
        return StillProcessing;
      }
      var subnets := ResolveSubnets(d, resources);
      if !subnets.Go? {
        return if subnets.Failed? then Failed else StillProcessing;
      }
      var net := subnets.value;
      if names == [] {
        return StillProcessing;
      }
      if Calm(old(weather)) {
        OfferedOnce(things, d, resources[0], net.network);
      }
      ghost var two := things;
      var groups := MaterializeGroups(d, net.network, names, Home(d), net.vpc);
      ExtendsAcross(old(things), two, things);
      if !groups.Go? {
        return if groups.Failed? then Failed else StillProcessing;
      }
      SubnetsReadyLasts(old(things), two, things, d, resources, net);
      GroupsMadeLast(old(things), two, things, things, created, created, |old(created)|, Home(d), names, net.network,
          net.vpc);
      NetTogether(old(things), things, d, resources, net, groups.value);
      net := net.(groups := groups.value);
      if ips == [] {
        return Go(net);
      }
      ghost var three := things;
      if Calm(old(weather)) {
        SameActive(old(things), things, ELASTIC_IP, Place(Home(d), ips[0]));
      }
      var elasticIp := LoadActive(ELASTIC_IP, Place(Home(d), ips[0]));
      ExtendsAcross(old(things), three, things);
      if !elasticIp.Go? {
        return if elasticIp.Failed? then Failed else StillProcessing;
      }
      NetReadyLasts(three, things, net);
      SubnetsReadyLasts(old(things), three, things, d, resources, net);
      GroupsMadeLast(old(things), old(things), three, things, created, created, |old(created)|, Home(d), names,
                     net.network, net.vpc);
      AddressAdded(old(things), things, d, resources, net, Place(Home(d), ips[0]));
      return Go(net.(elasticIp := Some(Place(Home(d), ips[0]))));
    }

    // ---------- volumes ----------

    lemma AreTyped()
      requires Safe()
      ensures forall id :: id in things ==> Typed(id.kind, things[id].spec)
    {
    }

    method ResolveVolumes(d: Instance) returns (r: Step<Volumes>)
      requires Safe()
      modifies this
      ensures Safe() && Extends(old(things), things) && created == old(created) && seen == old(seen)
      ensures r.Go? ==> VolumesReady(things, r.value) && VolumesDescribe(d, Home(d), r.value)
      ensures failures == old(failures) || (r.Failed? && failures == old(failures) + 1)
      ensures r.Failed? && failures == old(failures) ==> ZonesConflict(things, d, Home(d))
      ensures Calm(old(weather)) ==>
                && Untouched(old(things), old(seca))
                && (r.Go? <==> VolumesThere(things, d, Home(d)))
                && (r.Failed? <==> BootThere(things, d, Home(d)) && OtherZone(things, d, Home(d)))
    {
      hide LastSegment, Safe, VolumesReady, DataVolumes;
      var name := LastSegment(d.boot);
      if name == "" {
        return StillProcessing;
      }
      var boot := LoadActive(VOLUME, Place(Home(d), name));
      if !boot.Go? {
        return if boot.Failed? then Failed else StillProcessing;
      }
      AreTyped();
      assert Typed(VOLUME, boot.value.spec);
      if d.zone != "" && d.zone != boot.value.spec.zone {
        return Failed;
      }
      var v := Volumes(Place(Home(d), name), [], boot.value.spec.zone);
      OnlyBoot(things, v);
      ghost var before := things;
      r := ResolveDataVolumes(d, v);
      ExtendsAcross(old(things), before, things);
    }

    /** Data volumes that name nothing are skipped. */
    method ResolveDataVolumes(d: Instance, boot: Volumes) returns (r: Step<Volumes>)
      requires Safe() && VolumesReady(things, boot) && boot.data == []
      modifies this
      ensures Safe() && Extends(old(things), things) && created == old(created) && seen == old(seen)
      ensures r.Go? ==> VolumesReady(things, r.value)
                        && r.value == boot.(data := DataVolumes(Home(d), d.dataVolumes))
      ensures failures == old(failures) + if r.Failed? then 1 else 0
      ensures Calm(old(weather)) ==>
                && Untouched(old(things), old(seca)) && !r.Failed?
                && (r.Go? <==>
                      forall i :: 0 <= i < |d.dataVolumes| ==> VolumeThere(things, Home(d), d.dataVolumes[i]))
    {
      hide LastSegment, Safe, VolumesReady, Extends, IsActive;
      NothingNew(things);
      var v := boot;
      for i := 0 to |d.dataVolumes|
        invariant Safe() && Extends(old(things), things) && created == old(created) && seen == old(seen)
        invariant VolumesReady(things, v) && failures == old(failures)
        invariant v == boot.(data := DataVolumes(Home(d), d.dataVolumes[..i]))
        invariant Calm(old(weather)) ==>
                    && Untouched(old(things), old(seca))
                    && forall j :: 0 <= j < i ==> VolumeThere(things, Home(d), d.dataVolumes[j])
      {
        assert d.dataVolumes[..i + 1][..i] == d.dataVolumes[..i];
        var dataName := LastSegment(d.dataVolumes[i]);
        if dataName == "" {
          continue;
        }
        ghost var before := things;
        var volume := LoadActive(VOLUME, Place(Home(d), dataName));
        ExtendsAcross(old(things), before, things);
        VolumesReadyLasts(before, things, v);
        if !volume.Go? {
          assert Calm(old(weather)) ==> !VolumeThere(things, Home(d), d.dataVolumes[i]);
          return if volume.Failed? then Failed else StillProcessing;
        }
        OneMoreVolume(things, v, Place(Home(d), dataName));
        v := v.(data := v.data + [Place(Home(d), dataName)]);
      }
      assert d.dataVolumes[..|d.dataVolumes|] == d.dataVolumes;
      return Go(v);
    }

    // ---------- the pass ----------

    /** The namespace of the instance's workspace. */
    function Home(d: Instance): string {
      N.ComputeNamespace(hash, d.tenant, d.workspace)
    }

    /** The namespace of its tenant, where the project is. */
    function ProjectHome(d: Instance): string {
      N.ComputeNamespace(hash, d.tenant, "")
    }

    function ServerId(d: Instance): Id {
      Id(SERVER, Place(Home(d), d.name))
    }

    /** The flavor belongs to the SKU as it was read last. */
    ghost predicate FlavorSeen(d: Instance, flavor: string, seen: seq<Seca>) {
      && LastSegment(d.sku) != "" && seen != []
      && var key := Scoped(d.tenant, "", LastSegment(d.sku));
         key in seen[|seen| - 1].skus && flavorOf(seen[|seen| - 1].skus[key]) == Some(flavor)
    }

    /** The SKU as it was read last has no flavor. */
    ghost predicate NoFlavor(d: Instance)
      reads this
    {
      && LastSegment(d.sku) != "" && seen != []
      && var key := Scoped(d.tenant, "", LastSegment(d.sku));
         key in seen[|seen| - 1].skus && flavorOf(seen[|seen| - 1].skus[key]).None?
    }

    /** What the instance asks for cannot be, whoever waits for it. */
    ghost predicate Refused(d: Instance, nics: seq<Nic>)
      reads this
    {
      AmbiguousNic(things, d, nics) || ZonesConflict(things, d, Home(d)) || NoFlavor(d)
    }

    /** How the references follow from the instance and the NICs it was read with. */
    ghost predicate Describes(start: Things, things: Things, d: Instance, nics: seq<Nic>, seen: seq<Seca>, from: nat,
                              r: Refs) {
      && WorkspaceSeen(d, seen, from) && NicsSeen(d, nics, seen, from + 1) && FlavorSeen(d, r.flavor, seen)
      && r.project == Place(ProjectHome(d), d.workspace)
      && r.keyPair == Place(Home(d), d.name + KEY_PAIR_SUFFIX)
      && (exists network ::
          NetDescribes(start, things, d, nics, Home(d), Net(r.vpc, network, r.subnets, r.groups, r.elasticIp)))
      && VolumesDescribe(d, Home(d), Volumes(r.boot, r.dataVolumes, r.zone))
    }

    /** Gathers everything the server needs; whatever is missing or not active stops the pass. */
    method Resolve(d: Instance) returns (r: Step<Refs>, ghost nics: seq<Nic>)
      requires Safe()
      modifies this
      ensures Safe() && Extends(old(things), things) && Grown(old(created), created, {GROUP, RULE, KEY_PAIR}) &&
                old(seen) <= seen
      ensures r.Go? ==> Sound(things, r.value) && Describes(old(things), things, d, nics, seen, |old(seen)|, r.value)
      ensures failures == old(failures) || (r.Failed? && failures == old(failures) + 1)
      ensures r.Failed? && failures == old(failures) ==> Refused(d, nics)
      ensures Calm(old(weather)) ==>
                && StillCalm(old(things), old(seca))
                && (r.Go? <==> AllThere(old(things), seca, d, flavorOf, Place(ProjectHome(d), d.workspace), Home(d)))
    {
      hide NicsSeen, WorkspaceSeen, NetReady, NetDescribes, VolumesDescribe, IsActive, LastSegment, Sound;
      hide OnlyNew, ParentsThere, NetThere, KeyThere, VolumesThere, FlavorThere;
      var graph;
      graph, nics := ResolveGraph(d);
      if !graph.Go? {
        return if graph.Failed? then Failed else StillProcessing, nics;
      }
      var net := graph.value;
      ghost var two, known, sawNics := things, created, seen;
      r := ResolveKeyAndRest(d, Place(ProjectHome(d), d.workspace), net);
      ExtendsAcross(old(things), two, things);
      GrownAcross(old(created), known, created, {GROUP, RULE}, {GROUP, RULE, KEY_PAIR});
      ReadsLast(d, nics, sawNics, seen, |old(seen)|);
      ReadsLast(d, nics, sawNics, seen, |old(seen)| + 1);
      NetDescribesLasts(old(things), two, things, d, nics, Home(d), net);
      if Calm(old(weather)) {
        OnlyNewAcross(old(things), two, things);
        StillThere(old(things), two, d, Home(d));
      }
      if r.Go? {
        assert net == Net(r.value.vpc, net.network, r.value.subnets, r.value.groups, r.value.elasticIp);
      }
    }

    /** Workspace, project and network. */
    method ResolveGraph(d: Instance) returns (r: Step<Net>, ghost nics: seq<Nic>)
      requires Safe()
      modifies this
      ensures Safe() && Extends(old(things), things) && Grown(old(created), created, {GROUP, RULE}) && old(seen) <= seen
      ensures r.Go? ==>
                IsActive(things, PROJECT, Place(ProjectHome(d), d.workspace)) && WorkspaceSeen(d, seen, |old(seen)|)
                        && NetReady(things, r.value) && NetDescribes(old(things), things, d, nics, Home(d), r.value)
                        && NicsSeen(d, nics, seen, |old(seen)| + 1)
      ensures failures == old(failures) || (r.Failed? && failures == old(failures) + 1)
      ensures r.Failed? && failures == old(failures) ==> AmbiguousNic(things, d, nics)
      ensures Calm(old(weather)) ==>
                && StillCalm(old(things), old(seca))
                && (r.Go? <==> ParentsThere(old(things), seca, d, Place(ProjectHome(d), d.workspace))
                               && NetThere(old(things), seca, d, Home(d)))
    {
      hide NicsSeen, WorkspaceSeen, NetReady, NetDescribes, IsActive, LastSegment;
      hide OnlyNew, ParentsThere, NetThere, AsAsked, NicsInOrder;
      NothingNew(things);
      nics := [];
      var ready := ResolveParents(d);
      if !ready.Go? {
        return if ready.Failed? then Failed else StillProcessing, nics;
      }
      ghost var one, sawParents := things, seen;
      r, nics := ResolveNetworking(d);
      ExtendsAcross(old(things), one, things);
      ActiveLasts(one, things, PROJECT, Place(ProjectHome(d), d.workspace));
      ReadsLast(d, nics, sawParents, seen, |old(seen)|);
      if r.Go? {
        NetDescribesEarlier(old(things), one, things, d, nics, Home(d), r.value);
      }
    }

    /** Key pair, volumes and flavor. */
    method ResolveKeyAndRest(d: Instance, project: Place, net: Net) returns (r: Step<Refs>)
      requires Safe() && IsActive(things, PROJECT, project) && NetReady(things, net)
      modifies this
      ensures Safe() && Extends(old(things), things) && Grown(old(created), created, {KEY_PAIR}) && old(seen) <= seen
      ensures r.Go? ==> Sound(things, r.value)
                        && r.value == Refs(project, net.vpc, net.subnets, net.groups, net.elasticIp,
                                           Place(Home(d), d.name + KEY_PAIR_SUFFIX),
                                           r.value.boot, r.value.dataVolumes, r.value.zone, r.value.flavor)
                        && VolumesDescribe(d, Home(d), Volumes(r.value.boot, r.value.dataVolumes, r.value.zone))
                        && FlavorSeen(d, r.value.flavor, seen)
      ensures failures == old(failures) || (r.Failed? && failures == old(failures) + 1)
      ensures r.Failed? && failures == old(failures) ==> ZonesConflict(things, d, Home(d)) || NoFlavor(d)
      ensures Calm(old(weather)) ==>
                && StillCalm(old(things), old(seca))
                && (r.Go? <==> KeyThere(old(things), d, Home(d)) && VolumesThere(old(things), d, Home(d))
                               && FlavorThere(seca, d, flavorOf))
    {
      hide NetReady, VolumesDescribe, IsActive, LastSegment, Sound, OnlyNew, KeyThere, VolumesThere, FlavorThere;
      var key := ResolveKeyPair(d);
      ActiveLasts(old(things), things, PROJECT, project);
      NetReadyLasts(old(things), things, net);
      if !key.Go? {
        return if key.Failed? then Failed else StillProcessing;
      }
      ghost var two := things;
      if Calm(old(weather)) {
        StillThere(old(things), two, d, Home(d));
      }
      r := ResolveRest(d, project, key.value, net);
      ExtendsAcross(old(things), two, things);
    }

    /** The second half: volumes and flavor. */
    method ResolveRest(d: Instance, project: Place, key: Place, net: Net) returns (r: Step<Refs>)
      requires Safe() && IsActive(things, PROJECT, project) && IsActive(things, KEY_PAIR, key) && NetReady(things, net)
      modifies this
      ensures Safe() && Extends(old(things), things) && created == old(created) && old(seen) <= seen
      ensures r.Go? ==> Sound(things, r.value)
                        && r.value == Refs(project, net.vpc, net.subnets, net.groups, net.elasticIp, key,
                                           r.value.boot, r.value.dataVolumes, r.value.zone, r.value.flavor)
                        && VolumesDescribe(d, Home(d), Volumes(r.value.boot, r.value.dataVolumes, r.value.zone))
                        && FlavorSeen(d, r.value.flavor, seen)
      ensures failures == old(failures) || (r.Failed? && failures == old(failures) + 1)
      ensures r.Failed? && failures == old(failures) ==> ZonesConflict(things, d, Home(d)) || NoFlavor(d)
      ensures Calm(old(weather)) ==>
                && Untouched(old(things), old(seca))
                && (r.Go? <==> VolumesThere(things, d, Home(d)) && FlavorThere(seca, d, flavorOf))
    {
      hide NetReady, VolumesReady, VolumesDescribe, IsActive, LastSegment, Sound, VolumesThere, FlavorThere;
      var volumes := ResolveVolumes(d);
      if !volumes.Go? {
        return if volumes.Failed? then Failed else StillProcessing;
      }
      var v := volumes.value;
      ghost var four := things;
      var flavor := ResolveFlavor(d);
      ExtendsAcross(old(things), four, things);
      if !flavor.Go? {
        return if flavor.Failed? then Failed else StillProcessing;
      }
      ActiveLasts(old(things), things, PROJECT, project);
      ActiveLasts(old(things), things, KEY_PAIR, key);
      NetReadyLasts(old(things), things, net);
      VolumesReadyLasts(four, things, v);
      AllReady(things, project, key, net, v, flavor.value);
      r := Go(Refs(project, net.vpc, net.subnets, net.groups, net.elasticIp, key, v.boot, v.data, v.zone,
          flavor.value));
      assert v == Volumes(v.boot, v.data, v.zone);
    }

    /** The workspace has to be active, and its project at the provider. */
    method ResolveParents(d: Instance) returns (r: Step<Thing>)
      requires Safe()
      modifies this
      ensures Safe() && Extends(old(things), things) && created == old(created) && old(seen) <= seen
      ensures r.Go? ==> WorkspaceSeen(d, seen, |old(seen)|) && |seen| == |old(seen)| + 1
      ensures r.Go? ==> IsActive(things, PROJECT, Place(ProjectHome(d), d.workspace))
      ensures failures == old(failures) + if r.Failed? then 1 else 0
      ensures Calm(old(weather)) ==>
                && Untouched(old(things), old(seca)) && !r.Failed?
                && (r.Go? <==> ParentsThere(things, seca, d, Place(ProjectHome(d), d.workspace)))
    {
      var s := Observe();
      var key := Scoped(d.tenant, "", d.workspace);
      if s.None? || key !in s.value.workspaces || !s.value.workspaces[key] {
        return StillProcessing;
      }
      ghost var before := things;
      r := LoadActive(PROJECT, Place(ProjectHome(d), d.workspace));
      ExtendsAcross(old(things), before, things);
    }

    method ResolveKeyPair(d: Instance) returns (r: Step<Place>)
      requires Safe()
      modifies this
      ensures Safe() && Extends(old(things), things) && Grown(old(created), created, {KEY_PAIR}) && seen == old(seen)
      ensures forall i :: |old(created)| <= i < |created| ==>
                d.sshKeys != [] && created[i] in things && things[created[i]].spec == KeyPairSpec(d.sshKeys[0])
      ensures r.Go? ==> r.value == Place(Home(d), d.name + KEY_PAIR_SUFFIX) && IsActive(things, KEY_PAIR, r.value)
      ensures failures == old(failures) + if r.Failed? then 1 else 0
      ensures Calm(old(weather)) ==>
                && StillCalm(old(things), old(seca)) && !r.Failed?
                && (r.Go? <==> KeyThere(old(things), d, Home(d)))
                && (d.sshKeys != [] ==> Id(KEY_PAIR, Place(Home(d), d.name + "-key")) in things)
    {
      if d.sshKeys == [] {
        return StillProcessing;
      }
      var place := Place(Home(d), d.name + KEY_PAIR_SUFFIX);
      var made := CreateThing(Id(KEY_PAIR, place), KeyPairSpec(d.sshKeys[0]));
      if made == Error {
        return Failed;
      }
      ghost var before := things;
      var observed := LoadActive(KEY_PAIR, place);
      ExtendsAcross(old(things), before, things);
      if !observed.Go? {
        return if observed.Failed? then Failed else StillProcessing;
      }
      return Go(place);
    }

    /** A SKU that is not there is waited for; one without a flavor is an error. */
    method ResolveFlavor(d: Instance) returns (r: Step<string>)
      requires Safe()
      modifies this
      ensures Safe() && Extends(old(things), things) && created == old(created) && old(seen) <= seen
      ensures r.Go? ==> FlavorSeen(d, r.value, seen)
      ensures failures == old(failures)
      ensures r.Failed? ==> NoFlavor(d)
      ensures Calm(old(weather)) ==>
                && Untouched(old(things), old(seca)) && (r.Go? <==> FlavorThere(seca, d, flavorOf))
                && (r.Failed? <==> SkuThere(seca, d) && !FlavorThere(seca, d, flavorOf))
    {
      hide LastSegment;
      var name := LastSegment(d.sku);
      if name == "" {
        return StillProcessing;
      }
      var s := Observe();
      var key := Scoped(d.tenant, "", name);
      if s.None? || key !in s.value.skus {
        return StillProcessing;
      }
      var flavor := flavorOf(s.value.skus[key]);
      r := if flavor.None? then Failed else Go(flavor.value);
    }

    lemma DescribesLasts(start: Things, before: Things, after: Things, d: Instance, nics: seq<Nic>, seen: seq<Seca>,
                         from: nat, r: Refs)
      requires Extends(before, after) && Describes(start, before, d, nics, seen, from, r)
      ensures Describes(start, after, d, nics, seen, from, r)
    {
      hide NetDescribes, VolumesDescribe, NicsSeen, WorkspaceSeen, LastSegment;
      var network :| NetDescribes(start, before, d, nics, Home(d),
          Net(r.vpc, network, r.subnets, r.groups, r.elasticIp));
      NetDescribesLasts(start, before, after, d, nics, Home(d), Net(r.vpc, network, r.subnets, r.groups, r.elasticIp));
    }

    /** The server of this instance was created last, for these references. */
    ghost predicate ServerMade(start: Things, before: seq<Id>, d: Instance, nics: seq<Nic>, from: nat, known: seq<Id>,
                               refs: Refs)
      reads this
    {
      var id := Id(SERVER, Place(N.ComputeNamespace(hash, d.tenant, d.workspace), d.name));
      && Grown(before, known, {GROUP, RULE, KEY_PAIR}) && created == known + [id]
      && Describes(start, things, d, nics, seen, from, refs)
      && ServerAsked(hash, things, d, nics, seen, from + 1, refs)
      && id in things
      && things[id].spec == ServerSpec(refs, if refs.zone == "" then "ITBG-1" else refs.zone, TagsOf(d.labels))
    }

    lemma DescribedServer(start: Things, d: Instance, nics: seq<Nic>, from: nat, r: Refs)
      requires Describes(start, things, d, nics, seen, from, r)
      ensures ServerAsked(hash, things, d, nics, seen, from + 1, r)
    {
      hide NetDescribes, VolumesDescribe, NicsSeen, LastSegment, AsAsked, NicsInOrder;
      var network :| NetDescribes(start, things, d, nics, Home(d),
          Net(r.vpc, network, r.subnets, r.groups, r.elasticIp));
      DescribedIsAsked(start, things, d, nics, Home(d), Net(r.vpc, network, r.subnets, r.groups, r.elasticIp));
      NicsDescribed(start, d, nics, network, r);
      SeenInOrder(d, nics, seen, from + 1);
      DescribedVolumesAsked(d, Home(d), Volumes(r.boot, r.dataVolumes, r.zone));
    }

    lemma NicsDescribed(start: Things, d: Instance, nics: seq<Nic>, network: string, r: Refs)
      requires NetDescribes(start, things, d, nics, Home(d), Net(r.vpc, network, r.subnets, r.groups, r.elasticIp))
      ensures |nics| == |NicRefs(d)|
    {
      hide NetFollows;
    }

    /**
      A server is created only after everything it refers to was seen active, at most one in a pass and
      as the last thing; the pass is through only when it saw the server itself active.
     */
    method Create(d: Instance) returns (r: Step<Thing>, ghost nics: seq<Nic>)
      requires Safe()
      modifies this
      ensures Safe() && Extends(old(things), things) && old(seen) <= seen
      ensures r.Go? ==> IsActive(things, SERVER, ServerId(d).place)
      ensures || Grown(old(created), created, {GROUP, RULE, KEY_PAIR})
              || (exists known, refs :: ServerMade(old(things), old(created), d, nics, |old(seen)|, known, refs))
      // It fails if and only if a request failed, the last one of the pass, or the instance asks for what cannot be.
      ensures failures == old(failures) || (r.Failed? && failures == old(failures) + 1)
      ensures r.Failed? && failures == old(failures) ==> Refused(d, nics)
      // Undisturbed, the pass creates the server once everything is there, and is through once that is active.
      ensures Calm(old(weather)) ==>
                var ready := AllThere(old(things), seca, d, flavorOf, Place(ProjectHome(d), d.workspace), Home(d));
                && StillCalm(old(things), old(seca))
                && (r.Go? <==> ready && IsActive(old(things), SERVER, ServerId(d).place))
                && (ready ==> !r.Failed? && ServerId(d) in things)
    {
      hide Sound, Describes, OnlyNew, AllThere, ServerAsked, IsActive, Extends, N.ComputeNamespace, Next, AfterOthers;
      var resolved;
      resolved, nics := Resolve(d);
      if !resolved.Go? {
        return if resolved.Failed? then Failed else StillProcessing, nics;
      }
      var refs := resolved.value;
      var tags := G.CanonicalTags(d.labels);
      ghost var one, known := things, created;
      var made := CreateThing(ServerId(d), ServerSpec(refs, ServerZone(refs.zone), tags));
      ExtendsAcross(old(things), one, things);
      if Calm(old(weather)) {
        OnlyNewAcross(old(things), one, things);
        SameActive(old(things), things, SERVER, ServerId(d).place);
      }
      DescribesLasts(old(things), one, things, d, nics, seen, |old(seen)|, refs);
      DescribedServer(old(things), d, nics, |old(seen)|, refs);
      assert created == known || ServerMade(old(things), old(created), d, nics, |old(seen)|, known, refs);
      if made == Error {
        return Failed, nics;
      }
      ghost var two := things;
      r := LoadActive(SERVER, ServerId(d).place);
      ExtendsAcross(old(things), two, things);
      DescribesLasts(old(things), two, things, d, nics, seen, |old(seen)|, refs);
      DescribedServer(old(things), d, nics, |old(seen)|, refs);
      assert created == known || ServerMade(old(things), old(created), d, nics, |old(seen)|, known, refs);
    }

    /** Any number of passes over any instances: no server ever refers to something that is not active. */
    method Drive(instances: seq<Instance>)
      requires Safe()
      modifies this
      ensures Safe() && Extends(old(things), things)
    {
      for i := 0 to |instances|
        invariant Safe() && Extends(old(things), things)
      {
        ghost var before := things;
        var _, _ := Create(instances[i]);
        ExtendsAcross(old(things), before, things);
      }
    }
  }

  // ---------- two inputs ----------

  lemma ReferenceOfNetwork(network: string, name: string)
    requires network != "" && SlashFree(network) && SlashFree(name)
    ensures var resource := Join(["networks", network, "subnets", name]);
            Wanted(resource) == network && LastSegment(resource) == name
  {
    var segs := ["networks", network, "subnets", name];
    assert Find(segs, "networks") == 0;
    ReferenceReads(segs);
  }

  /** Two active subnets of one name, in two networks and their VPCs. */
  function TwoSubnets(home: string, d: Instance, a: string, b: string, name: string): Things {
    map[
      Id(SUBNET, Place(a, name)) := Thing(Active, SubnetSpec(d.tenant, d.workspace, a, Place(home, a))),
      Id(SUBNET, Place(b, name)) := Thing(Active, SubnetSpec(d.tenant, d.workspace, b, Place(home, b)))]
  }

  function TwoReferences(a: string, b: string, name: string): seq<string> {
    [Join(["networks", a, "subnets", name]), Join(["networks", b, "subnets", name])]
  }

  lemma TwoSubnetsAreOffered(home: string, d: Instance, a: string, b: string, name: string)
    requires a != "" && b != "" && a != b && SlashFree(a) && SlashFree(b) && SlashFree(name)
    ensures AllOffered(TwoSubnets(home, d, a, b, name), d, TwoReferences(a, b, name))
    ensures Wanted(TwoReferences(a, b, name)[0]) == a && Wanted(TwoReferences(a, b, name)[1]) == b
  {
    ReferenceOfNetwork(a, name);
    ReferenceOfNetwork(b, name);
    hide LastSegment, Wanted, Join;
    var things := TwoSubnets(home, d, a, b, name);
    assert Offered(things, d, name, Place(a, name)) && OfNetwork(things, Place(a, name), a);
    assert Offered(things, d, name, Place(b, name)) && OfNetwork(things, Place(b, name), b);
    assert OfferedAs(things, d, TwoReferences(a, b, name)[0], a);
    assert OfferedAs(things, d, TwoReferences(a, b, name)[1], b);
    assert OfferedIn(things, d, TwoReferences(a, b, name)[0]) && OfferedIn(things, d, TwoReferences(a, b, name)[1]);
  }

  /**
    Two subnets of one name in two networks, both active, and two references that name them: the pass
    takes both, although they are in different networks and VPCs.
   */
  method ResolveInTwoNetworks(hash: N.Hash, flavorOf: Sku -> Option<string>, seca: Seca, d: Instance, a: string,
                              b: string, name: string)
    returns (things: Things, net: Net)
    requires a != "" && b != "" && a != b && SlashFree(a) && SlashFree(b) && SlashFree(name)
    ensures |net.subnets| == 2 && AllActive(things, SUBNET, net.subnets)
    ensures OfNetwork(things, net.subnets[0], net.network) && InVpc(things, net.subnets[0], net.vpc)
    ensures !OfNetwork(things, net.subnets[1], net.network) && !InVpc(things, net.subnets[1], net.vpc)
  {
    hide LastSegment, Wanted, Join, N.ComputeNamespace, OneNetwork, OfferedIn, Fits;
    var home := N.ComputeNamespace(hash, d.tenant, d.workspace);
    things := TwoSubnets(home, d, a, b, name);
    var resources := TwoReferences(a, b, name);
    TwoSubnetsAreOffered(home, d, a, b, name);
    var handler := new Handler(hash, flavorOf, seca, things, []);
    var r := handler.ResolveSubnets(d, resources);
    net := r.value;
    hide *;
    TwoTaken(hash, d, a, b, name, net);
  }

  lemma TwoTaken(hash: N.Hash, d: Instance, a: string, b: string, name: string, net: Net)
    requires a != "" && b != "" && a != b && SlashFree(a) && SlashFree(b) && SlashFree(name)
    requires var things := TwoSubnets(N.ComputeNamespace(hash, d.tenant, d.workspace), d, a, b, name);
             SubnetsReady(things, things, d, TwoReferences(a, b, name), net) && |net.subnets| == 2
    ensures var things := TwoSubnets(N.ComputeNamespace(hash, d.tenant, d.workspace), d, a, b, name);
            && AllActive(things, SUBNET, net.subnets)
            && OfNetwork(things, net.subnets[0], net.network) && InVpc(things, net.subnets[0], net.vpc)
            && !OfNetwork(things, net.subnets[1], net.network) && !InVpc(things, net.subnets[1], net.vpc)
  {
    hide LastSegment, Wanted, Join, N.ComputeNamespace, OneNetwork, OfferedIn, Fits;
    var home, resources := N.ComputeNamespace(hash, d.tenant, d.workspace), TwoReferences(a, b, name);
    TwoSubnetsAreOffered(home, d, a, b, name);
    var things := TwoSubnets(home, d, a, b, name);
    TwoNetworks(things, things, d, resources, net, 1);
    SubnetsShareVpcIff(hash, things, things, d, resources, net);
  }

  /**
    A group with a dash was materialised for another network. A group of the instance's own network
    comes to the same name, and the pass hands out the other one, in the other VPC.
   */
  method TakeGroupOfAnotherNetwork(hash: N.Hash, flavorOf: Sku -> Option<string>, seca: Seca, d: Instance, x: string,
                                   y: string, n: string)
    returns (things: Things, group: Place)
    requires GroupKnown(seca, d, x)
    ensures Id(GROUP, group) in things && Filed(Id(GROUP, group), things[Id(GROUP, group)].spec)
    ensures var home := N.ComputeNamespace(hash, d.tenant, d.workspace);
            && group == Place(home, MaterializedName(x, y + "-" + n))
            && IsFor(things[Id(GROUP, group)].spec, x + "-" + y, n, Place(home, n))
            && !IsFor(things[Id(GROUP, group)].spec, x, y + "-" + n, Place(home, y + "-" + n))
  {
    hide N.ComputeNamespace, Expansion, RulesMade, GroupMade, RulesSeen, GroupSeen, TagsOf;
    var home := N.ComputeNamespace(hash, d.tenant, d.workspace);
    MaterializedNamesCollide(x, y, n);
    hide MaterializedName;
    var place := Place(home, MaterializedName(x, y + "-" + n));
    things := map[Id(GROUP, place) := Thing(Active, GroupSpec(d.tenant, x + "-" + y, n, Place(home, n), []))];
    assert IsActive(things, GROUP, place);
    var handler := new Handler(hash, flavorOf, seca, things, []);
    var r, _, _ := handler.MaterializeSecurityGroup(d, y + "-" + n, x, home, Place(home, y + "-" + n));
    group := r.value;
    assert |n| < |y + "-" + n|;
  }

  // An inline rule before and after an edit.

  const INGRESS := SecaRule("ingress", "", "tcp", None, None, [])
  const EGRESS := INGRESS.(direction := "egress")

  lemma EditedExpansion(group: Place, labels: map<string, string>)
    ensures var made := Expansion([Normalized(INGRESS, labels)], group.name, group.namespace);
            var now := Expansion([Normalized(EGRESS, labels)], group.name, group.namespace);
            |made| == |now| == 1 && made[0].direction == "Ingress" && now[0].direction == "Egress"
  {
    OneTcpRule(Normalized(INGRESS, labels));
    OneTcpRule(Normalized(EGRESS, labels));
    hide Combos, RuleName;
    assert ToLower("egress") == "egress" && ToLower("ingress")[0] == 'i';
  }

  lemma OneTcpRule(spec: RuleSpec)
    requires spec.protocol == "tcp" && spec.portList == [] && spec.portFrom == spec.portTo == 0 && spec.sources == []
    ensures Combos([spec]) == [Combo("TCP", "ALL", ArubaDirection(spec.direction), ANYWHERE, spec.labels)]
  {
    var protocols, ports := ["TCP"], ["ALL"];
    assert ToLower("tcp") == "tcp";
    assert ArubaProtocols(spec.protocol, spec.hasIcmp) == protocols && ArubaPorts(spec, "TCP") == ports;
    assert [spec][..0] == [] && protocols[..0] == [] && ports[..0] == [];
    assert OverPorts(spec, "TCP", ports) == OverTargets(spec, "TCP", "ALL", [ANYWHERE]);
    assert OverProtocols(spec, protocols) == OverPorts(spec, "TCP", ports);
  }

  /**
    A group and its rule were materialised, and then the inline rule was edited to the other direction.
    The pass goes through, and the rule is still the old one.
   */
  method KeepEditedRule(hash: N.Hash, flavorOf: Sku -> Option<string>, d: Instance, network: string, name: string,
                        labels: map<string, string>, vpc: Place)
    returns (things: Things, r: Step<Place>)
    ensures r.Go?
    ensures var now := Expansion([Normalized(EGRESS, labels)], r.value.name, r.value.namespace);
            var made := Expansion([Normalized(INGRESS, labels)], r.value.name, r.value.namespace);
            && AllRight(things, r.value, made) && !AllRight(things, r.value, now)
  {
    var home := N.ComputeNamespace(hash, d.tenant, d.workspace);
    hide N.ComputeNamespace, Expansion, RulesMade, RulesExist, GroupMade, RulesSeen, GroupSeen, TagsOf;
    hide MaterializedName, RuleName, Combos, AllRight, LastSegment;
    var group := Place(home, MaterializedName(name, network));
    var made := BuildSecurityRules([Normalized(INGRESS, labels)], group.name, group.namespace);
    EditedExpansion(group, labels);
    var start := map[
      Id(GROUP, group) := Thing(Active, GroupSpec(d.tenant, name, network, vpc, [])),
      RuleAt(group, 0) := Thing(Active, RuleSpecOf(made[0]))];
    var key := Scoped(d.tenant, d.workspace, name);
    var seca := Seca(map[], map[], map[key := SecaGroup([EGRESS], [], labels)], map[], map[]);
    assert IsActive(start, GROUP, group);
    var handler := new Handler(hash, flavorOf, seca, start, []);
    ghost var source, referenced;
    r, source, referenced := handler.MaterializeSecurityGroup(d, network, name, home, vpc);
    things := handler.things;
    OldRuleStays(start, things, group, labels, made);
  }

  lemma OldRuleStays(start: Things, things: Things, group: Place, labels: map<string, string>, made: seq<SecurityRule>)
    requires made == Expansion([Normalized(INGRESS, labels)], group.name, group.namespace)
    requires Extends(start, things) && RuleAt(group, 0) in start && |made| > 0
    requires start[RuleAt(group, 0)].spec == RuleSpecOf(made[0])
    ensures AllRight(things, group, made)
    ensures !AllRight(things, group, Expansion([Normalized(EGRESS, labels)], group.name, group.namespace))
  {
    hide *;
    EditedExpansion(group, labels);
    var now := Expansion([Normalized(EGRESS, labels)], group.name, group.namespace);
    OneRuleRight(things, group, made);
    OneRuleRight(things, group, now);
    SpecLasts(start, things, RuleAt(group, 0));
  }

  lemma OneRuleRight(things: Things, group: Place, rules: seq<SecurityRule>)
    requires |rules| == 1
    ensures AllRight(things, group, rules) <==>
              RuleAt(group, 0) in things && things[RuleAt(group, 0)].spec == RuleSpecOf(rules[0])
  {
    hide RuleAt;
  }

  lemma SpecLasts(before: Things, after: Things, id: Id)
    requires Extends(before, after) && id in before
    ensures id in after && after[id].spec == before[id].spec
  {
  }
}
