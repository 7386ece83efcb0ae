/**
  The objects of the provider as the instance handler sees them, and what others do to them: the
  provider's operator moves phases forward, and others create objects of any kind.
 */
module Inventory {
  import opened Prelude
  import opened RuleExpansion
  import N = Namespaces

  datatype Kind = PROJECT | SUBNET | KEY_PAIR | GROUP | RULE | VOLUME | ELASTIC_IP | SERVER

  datatype Id = Id(kind: Kind, place: Place)

  /** What a server refers to. */
  datatype Refs = Refs(
    project: Place,
    vpc: Place,
    subnets: seq<Place>,
    groups: seq<Place>,
    elasticIp: Option<Place>,
    keyPair: Place,
    boot: Place,
    dataVolumes: seq<Place>,
    zone: string,
    flavor: string)

  datatype Spec =
    | ProjectSpec
    | SubnetSpec(tenant: string, workspace: string, network: string, vpc: Place)
    | KeyPairSpec(publicKey: string)
    | GroupSpec(owner: string, seca: string, of: string, within: Place, tags: seq<string>)
    | RuleSpecOf(rule: SecurityRule)
    | VolumeSpec(zone: string)
    | ElasticIpSpec
    | ServerSpec(refs: Refs, placedIn: string, labelled: seq<string>)

  datatype Phase = Creating | Provisioning | Active

  function Rank(p: Phase): nat {
    match p case Creating => 0 case Provisioning => 1 case Active => 2
  }

  datatype Thing = Thing(phase: Phase, spec: Spec)

  type Things = map<Id, Thing>

  predicate Typed(kind: Kind, spec: Spec) {
    match spec
    case ProjectSpec => kind == PROJECT
    case SubnetSpec(_, _, _, _) => kind == SUBNET
    case KeyPairSpec(_) => kind == KEY_PAIR
    case GroupSpec(_, _, _, _, _) => kind == GROUP
    case RuleSpecOf(_) => kind == RULE
    case VolumeSpec(_) => kind == VOLUME
    case ElasticIpSpec => kind == ELASTIC_IP
    case ServerSpec(_, _, _) => kind == SERVER
  }

  ghost predicate WellTyped(things: Things) {
    forall id :: id in things ==> Typed(id.kind, things[id].spec)
  }

  predicate IsActive(things: Things, kind: Kind, place: Place) {
    Id(kind, place) in things && things[Id(kind, place)].phase == Active
  }

  predicate AllActive(things: Things, kind: Kind, places: seq<Place>) {
    forall p :: p in places ==> IsActive(things, kind, p)
  }

  // ---------- servers ----------

  /** The zone a server is created in: its boot volume's, or the default if that has none. */
  const DEFAULT_ZONE := "ITBG-1"

  function ServerZone(zone: string): string {
    if zone == "" then DEFAULT_ZONE else zone
  }

  predicate InVpc(things: Things, subnet: Place, vpc: Place) {
    && Id(SUBNET, subnet) in things
    && var spec := things[Id(SUBNET, subnet)].spec;
       spec.SubnetSpec? && spec.vpc == vpc
  }

  /** Everything the server refers to is there and active, and fits together. */
  predicate Sound(things: Things, r: Refs) {
    && IsActive(things, PROJECT, r.project)
    && r.subnets != [] && AllActive(things, SUBNET, r.subnets)
    && r.groups != [] && AllActive(things, GROUP, r.groups)
    && (r.elasticIp.Some? ==> IsActive(things, ELASTIC_IP, r.elasticIp.value))
    && IsActive(things, KEY_PAIR, r.keyPair)
    && IsActive(things, VOLUME, r.boot) && things[Id(VOLUME, r.boot)].spec == VolumeSpec(r.zone)
    && AllActive(things, VOLUME, r.dataVolumes)
    && InVpc(things, r.subnets[0], r.vpc)
  }

  /** The server is sound and in the zone of its boot volume. */
  predicate SoundServer(things: Things, spec: Spec)
    requires spec.ServerSpec?
  {
    Sound(things, spec.refs) && spec.placedIn == ServerZone(spec.refs.zone)
  }

  /** The servers among these objects are all sound. */
  ghost predicate MadeSound(things: Things, made: seq<Id>) {
    forall id :: id in made && id in things && things[id].spec.ServerSpec? ==> SoundServer(things, things[id].spec)
  }

  /** A server shares the zone of its boot volume unless that volume names none. */
  lemma SharesBootZoneIff(things: Things, spec: Spec)
    requires spec.ServerSpec? && SoundServer(things, spec)
    ensures var boot := Id(VOLUME, spec.refs.boot);
            && IsActive(things, VOLUME, boot.place) && things[boot].spec.VolumeSpec?
            && (spec.placedIn == things[boot].spec.zone <==> things[boot].spec.zone != "")
  {
  }

  // ---------- what lasts ----------

  /** Nothing goes away, no spec changes, and phases only move forward. */
  ghost predicate Extends(before: Things, after: Things) {
    forall id :: id in before ==>
      id in after && after[id].spec == before[id].spec && Rank(before[id].phase) <= Rank(after[id].phase)
  }

  lemma ExtendsAcross(a: Things, b: Things, c: Things)
    requires Extends(a, b) && Extends(b, c)
    ensures Extends(a, c)
  {
  }

  lemma ActiveLasts(before: Things, after: Things, kind: Kind, place: Place)
    requires Extends(before, after) && IsActive(before, kind, place)
    ensures IsActive(after, kind, place) && after[Id(kind, place)].spec == before[Id(kind, place)].spec
  {
  }

  lemma AllActiveLasts(before: Things, after: Things, kind: Kind, places: seq<Place>)
    requires Extends(before, after) && AllActive(before, kind, places)
    ensures AllActive(after, kind, places)
  {
    forall p | p in places
      ensures IsActive(after, kind, p)
    {
      ActiveLasts(before, after, kind, p);
    }
  }

  /** A server that was sound when it was created stays sound. */
  lemma SoundLasts(before: Things, after: Things, r: Refs)
    requires Extends(before, after) && Sound(before, r)
    ensures Sound(after, r)
  {
    ActiveLasts(before, after, PROJECT, r.project);
    AllActiveLasts(before, after, SUBNET, r.subnets);
    AllActiveLasts(before, after, GROUP, r.groups);
    if r.elasticIp.Some? {
      ActiveLasts(before, after, ELASTIC_IP, r.elasticIp.value);
    }
    ActiveLasts(before, after, KEY_PAIR, r.keyPair);
    ActiveLasts(before, after, VOLUME, r.boot);
    AllActiveLasts(before, after, VOLUME, r.dataVolumes);
    assert r.subnets[0] in r.subnets;
    ActiveLasts(before, after, SUBNET, r.subnets[0]);
  }

  lemma MadeSoundLasts(before: Things, after: Things, made: seq<Id>)
    requires Extends(before, after) && MadeSound(before, made) && forall id :: id in made ==> id in before
    ensures MadeSound(after, made)
  {
    hide Sound;
    forall id | id in made && after[id].spec.ServerSpec?
      ensures SoundServer(after, after[id].spec)
    {
      SoundLasts(before, after, before[id].spec.refs);
    }
  }

  /** Nothing changed, but for objects that are now being created. */
  ghost predicate OnlyNew(before: Things, after: Things) {
    && (forall id :: id in before ==> id in after && after[id] == before[id])
    && (forall id :: id in after && id !in before ==> after[id].phase == Creating)
  }

  lemma NothingNew(things: Things)
    ensures OnlyNew(things, things) && Extends(things, things)
  {
  }

  lemma OnlyNewAcross(a: Things, b: Things, c: Things)
    requires OnlyNew(a, b) && OnlyNew(b, c)
    ensures OnlyNew(a, c)
  {
  }

  /** New objects are not active, and what was active still is. */
  lemma SameActive(before: Things, after: Things, kind: Kind, place: Place)
    requires OnlyNew(before, after)
    ensures IsActive(after, kind, place) <==> IsActive(before, kind, place)
    ensures IsActive(after, kind, place) ==> after[Id(kind, place)] == before[Id(kind, place)]
  {
  }

  // ---------- what others do ----------

  /** The operator moves phases forward. */
  function Moved(things: Things, progress: map<Id, Phase>): Things {
    map id | id in things ::
      if id in progress && Rank(progress[id]) >= Rank(things[id].phase)
      then things[id].(phase := progress[id]) else things[id]
  }

  /** Others create objects that are not there yet, whatever these refer to. */
  function Joined(things: Things, arrivals: Things): Things {
    things + map id | id in arrivals && id !in things && Typed(id.kind, arrivals[id].spec) :: arrivals[id]
  }

  lemma MovingExtends(things: Things, progress: map<Id, Phase>)
    requires WellTyped(things)
    ensures WellTyped(Moved(things, progress)) && Extends(things, Moved(things, progress))
  {
  }

  lemma JoiningExtends(things: Things, arrivals: Things)
    requires WellTyped(things)
    ensures WellTyped(Joined(things, arrivals)) && Extends(things, Joined(things, arrivals))
  {
  }

  lemma AddingExtends(things: Things, id: Id, t: Thing)
    requires WellTyped(things) && id !in things && Typed(id.kind, t.spec)
    ensures WellTyped(things[id := t]) && Extends(things, things[id := t])
  {
  }
}
