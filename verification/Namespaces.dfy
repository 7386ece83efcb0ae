/**
  Namespaces for the children of workspaces and networks. The name of a namespace is the hash of its
  scope; creating a workspace or network provides the namespace of its children, deleting it takes an
  empty and owned one away again. A call is a sequence of API requests, any of which may fail.
 */
module Namespaces {
  import opened Prelude
  import opened References

  type Labels = map<string, string>

  // ---------- names ----------

  /** The three levels of scope that have a namespace. */
  datatype Scope =
    | TenantScope(tenant: string)
    | WorkspaceScope(tenant: string, workspace: string)
    | NetworkScope(tenant: string, workspace: string, network: string)

  function ScopeText(s: Scope): string {
    match s
    case TenantScope(t) => t
    case WorkspaceScope(t, w) => t + "/" + w
    case NetworkScope(t, w, n) => t + "/" + w + "/" + n
  }

  type Hash = string -> string

  function ComputeNamespace(hash: Hash, tenant: string, workspace: string): string {
    if tenant == "" && workspace == "" then ""
    else if tenant != "" && workspace == "" then hash(tenant)
    else hash(tenant + "/" + workspace)
  }

  function ComputeNetworkNamespace(hash: Hash, tenant: string, workspace: string, network: string): string {
    hash(tenant + "/" + workspace + "/" + network)
  }

  /** The scope a tenant and workspace stand for. */
  function ScopeOf(tenant: string, workspace: string): Scope {
    if workspace == "" then TenantScope(tenant) else WorkspaceScope(tenant, workspace)
  }

  lemma NamespaceOfScope(hash: Hash, tenant: string, workspace: string)
    requires tenant != "" || workspace != ""
    ensures ComputeNamespace(hash, tenant, workspace) == hash(ScopeText(ScopeOf(tenant, workspace)))
  {
  }

  predicate PlainScope(s: Scope) {
    match s
    case TenantScope(t) => SlashFree(t)
    case WorkspaceScope(t, w) => SlashFree(t) && SlashFree(w)
    case NetworkScope(t, w, n) => SlashFree(t) && SlashFree(w) && SlashFree(n)
  }

  lemma SlashSplits(a: string, b: string)
    ensures a + "/" + b == a + ("/" + b) && !SlashFree(a + "/" + b)
  {
    assert (a + "/" + b)[|a|] == '/';
  }

  lemma ThreeParts(a: string, b: string, c: string)
    ensures a + "/" + b + "/" + c == a + ("/" + (b + "/" + c))
  {
  }

  /** Scopes of names without slashes have the same text only if they are the same scope. */
  lemma ScopeTextsAreDistinct(a: Scope, b: Scope)
    requires PlainScope(a) && PlainScope(b)
    ensures ScopeText(a) == ScopeText(b) <==> a == b
  {
    if ScopeText(a) == ScopeText(b) && !a.TenantScope? && !b.TenantScope? {
      SlashSplits(a.tenant, RestOfScope(a));
      SlashSplits(b.tenant, RestOfScope(b));
      TextOfRest(a);
      TextOfRest(b);
      SameFirstSegment(a.tenant, b.tenant, RestOfScope(a), RestOfScope(b));
      assert RestOfScope(a) == RestOfScope(b);
      if a.NetworkScope? {
        SlashSplits(a.workspace, a.network);
      }
      if b.NetworkScope? {
        SlashSplits(b.workspace, b.network);
      }
      if a.NetworkScope? && b.NetworkScope? {
        SameFirstSegment(a.workspace, b.workspace, a.network, b.network);
      }
    } else if ScopeText(a) == ScopeText(b) {
      if !a.TenantScope? {
        SlashSplits(a.tenant, RestOfScope(a));
        TextOfRest(a);
      }
      if !b.TenantScope? {
        SlashSplits(b.tenant, RestOfScope(b));
        TextOfRest(b);
      }
    }
  }

  function RestOfScope(s: Scope): string
    requires !s.TenantScope?
  {
    match s
    case WorkspaceScope(_, w) => w
    case NetworkScope(_, w, n) => w + "/" + n
  }

  lemma TextOfRest(s: Scope)
    requires !s.TenantScope?
    ensures ScopeText(s) == s.tenant + "/" + RestOfScope(s)
  {
    if s.NetworkScope? {
      ThreeParts(s.tenant, s.workspace, s.network);
    }
  }

  /** With slashes in names, a workspace could take the namespace of a network. */
  lemma SlashesWouldCollide(t: string, w: string, n: string)
    ensures ScopeText(WorkspaceScope(t, w + "/" + n)) == ScopeText(NetworkScope(t, w, n))
  {
    ThreeParts(t, w, n);
  }

  ghost predicate CollisionFree(hash: Hash) {
    && (forall s, t :: hash(s) == hash(t) ==> s == t)
    && (forall s :: hash(s) != "")
  }

  lemma ScopesShareNoNamespace(hash: Hash, a: Scope, b: Scope)
    requires CollisionFree(hash) && PlainScope(a) && PlainScope(b)
    ensures hash(ScopeText(a)) == hash(ScopeText(b)) <==> a == b
  {
    ScopeTextsAreDistinct(a, b);
  }

  // ---------- resources and their children ----------

  const WORKSPACES := "workspaces"
  const NETWORKS := "networks"

  const TENANT_LABEL := "secapi.cloud/tenant"
  const WORKSPACE_LABEL := "secapi.cloud/workspace"
  const NETWORK_LABEL := "secapi.cloud/network"

  datatype ChildKind = NoChildNamespace | WorkspaceChildren | NetworkChildren

  datatype Meta = Meta(tenant: string, workspace: string, name: string)

  datatype Child = Child(namespace: string, labels: Labels)

  function ChildNamespaceLabels(hash: Hash, tenant: string, workspace: string, network: string): Child {
    var owner: Labels := map[];
    var owner1 := if tenant != "" then owner[TENANT_LABEL := tenant] else owner;
    var owner2 := if workspace != "" then owner1[WORKSPACE_LABEL := workspace] else owner1;
    if network != "" then
      Child(ComputeNetworkNamespace(hash, tenant, workspace, network), owner2[NETWORK_LABEL := network])
    else
      Child(ComputeNamespace(hash, tenant, workspace), owner2)
  }

  function ChildNamespaceFor(hash: Hash, kind: ChildKind, m: Meta): Child {
    match kind
    case WorkspaceChildren => ChildNamespaceLabels(hash, m.tenant, m.name, "")
    case NetworkChildren => ChildNamespaceLabels(hash, m.tenant, m.workspace, m.name)
    case NoChildNamespace => Child("", map[])
  }

  predicate Has(labels: Labels, key: string, value: string) {
    key in labels && labels[key] == value
  }

  /** The labels of a namespace say that it is for the children of this workspace or network. */
  ghost predicate LabelledFor(kind: ChildKind, m: Meta, labels: Labels) {
    match kind
    case NoChildNamespace => true
    case WorkspaceChildren =>
      && (m.tenant != "" ==> Has(labels, "secapi.cloud/tenant", m.tenant))
      && (m.name != "" ==> Has(labels, "secapi.cloud/workspace", m.name))
    case NetworkChildren =>
      && (m.tenant != "" ==> Has(labels, "secapi.cloud/tenant", m.tenant))
      && (m.workspace != "" ==> Has(labels, "secapi.cloud/workspace", m.workspace))
      && (m.name != "" ==> Has(labels, "secapi.cloud/network", m.name))
  }

  ghost predicate Owns(owner: Labels, labels: Labels) {
    forall k :: k in owner ==> k in labels && labels[k] == owner[k]
  }

  lemma KeysDiffer()
    ensures TENANT_LABEL != WORKSPACE_LABEL && TENANT_LABEL != NETWORK_LABEL && WORKSPACE_LABEL != NETWORK_LABEL
  {
    assert TENANT_LABEL[13] != WORKSPACE_LABEL[13] && TENANT_LABEL[13] != NETWORK_LABEL[13];
    assert WORKSPACE_LABEL[13] != NETWORK_LABEL[13];
  }

  /** The owner labels ask for tenant, workspace and network under their keys, and for nothing else. */
  lemma OwnsIffLabelled(hash: Hash, kind: ChildKind, m: Meta, labels: Labels)
    ensures Owns(ChildNamespaceFor(hash, kind, m).labels, labels) <==> LabelledFor(kind, m, labels)
  {
    KeysDiffer();
    hide ComputeNamespace, ComputeNetworkNamespace;
    var owner := ChildNamespaceFor(hash, kind, m).labels;
    if LabelledFor(kind, m, labels) {
      assert forall k :: k in owner ==> k in {TENANT_LABEL, WORKSPACE_LABEL, NETWORK_LABEL};
    }
  }

  /** What is labelled for one owner is labelled for another of the kind only if they differ in an unset tenant. */
  lemma LabelsTellOwners(hash: Hash, kind: ChildKind, m: Meta, n: Meta)
    requires kind != NoChildNamespace && ValidMeta(kind, m) && ValidMeta(kind, n)
    ensures LabelledFor(kind, m, ChildNamespaceFor(hash, kind, n).labels) <==> m == n || m == n.(tenant := "")
  {
    KeysDiffer();
    hide ComputeNamespace, ComputeNetworkNamespace;
  }

  /** An adapter manages the resources of one kind; it knows the kinds that may live in their namespaces. */
  datatype Adapter = Adapter(gvr: string, kind: ChildKind, childGVRs: seq<string>)

  const WORKSPACE_ADAPTER := Adapter(WORKSPACES, WorkspaceChildren,
    ["block-storages", "images", NETWORKS, "nics", "public-ips", "internet-gateways",
     "security-groups", "security-group-rules", "instances"])

  const NETWORK_ADAPTER := Adapter(NETWORKS, NetworkChildren, ["route-tables", "subnets"])

  function KindOf(gvr: string): ChildKind {
    if gvr == WORKSPACES then WorkspaceChildren
    else if gvr == NETWORKS then NetworkChildren
    else NoChildNamespace
  }

  predicate ValidName(s: string) {
    s != "" && SlashFree(s)
  }

  /** Which scope a resource opens for its children. */
  predicate ValidMeta(kind: ChildKind, m: Meta) {
    match kind
    case WorkspaceChildren => SlashFree(m.tenant) && m.workspace == "" && ValidName(m.name)
    case NetworkChildren => SlashFree(m.tenant) && ValidName(m.workspace) && ValidName(m.name)
    case NoChildNamespace => true
  }

  function ChildScope(kind: ChildKind, m: Meta): Scope
    requires kind != NoChildNamespace
  {
    if kind == WorkspaceChildren then WorkspaceScope(m.tenant, m.name) else NetworkScope(m.tenant, m.workspace, m.name)
  }

  /** Different workspaces and networks never share a child namespace. */
  lemma ChildrenShareNoNamespace(hash: Hash, j: ChildKind, m: Meta, k: ChildKind, n: Meta)
    requires CollisionFree(hash) && j != NoChildNamespace && k != NoChildNamespace && ValidMeta(j, m) && ValidMeta(k, n)
    ensures ChildNamespaceFor(hash, j, m).namespace == ChildNamespaceFor(hash, k, n).namespace <==> j == k && m == n
  {
    ScopesShareNoNamespace(hash, ChildScope(j, m), ChildScope(k, n));
  }

  /** A resource does not live in the namespace of its own children. */
  lemma ChildIsElsewhere(hash: Hash, gvr: string, m: Meta)
    requires CollisionFree(hash) && KindOf(gvr) != NoChildNamespace && ValidMeta(KindOf(gvr), m)
    ensures ChildNamespaceFor(hash, KindOf(gvr), m).namespace != ""
    ensures ComputeNamespace(hash, m.tenant, m.workspace) != ChildNamespaceFor(hash, KindOf(gvr), m).namespace
  {
    if m.tenant != "" || m.workspace != "" {
      NamespaceOfScope(hash, m.tenant, m.workspace);
      ScopesShareNoNamespace(hash, ScopeOf(m.tenant, m.workspace), ChildScope(KindOf(gvr), m));
    }
  }

  // ---------- the cluster ----------

  datatype Key = Key(namespace: string, gvr: string, name: string)

  datatype Obj = Obj(meta: Meta, deleting: bool, finalizers: bool)

  datatype Cluster = Cluster(namespaces: map<string, Labels>, objects: map<Key, Obj>)

  function HomeOf(hash: Hash, gvr: string, m: Meta): Key {
    Key(ComputeNamespace(hash, m.tenant, m.workspace), gvr, m.name)
  }

  /** Every object is in an existing namespace, and workspaces and networks are where their name says. */
  ghost predicate Housed(hash: Hash, c: Cluster) {
    forall k :: k in c.objects ==>
      && k.namespace in c.namespaces
      && (KindOf(k.gvr) != NoChildNamespace ==>
            k == HomeOf(hash, k.gvr, c.objects[k].meta) && ValidMeta(KindOf(k.gvr), c.objects[k].meta))
  }

  /** Every workspace and network that is not under deletion, `orphans` aside, has the namespace of its children. */
  ghost predicate Provisioned(hash: Hash, c: Cluster, orphans: set<Key>) {
    forall k :: k in c.objects && KindOf(k.gvr) != NoChildNamespace && !c.objects[k].deleting && k !in orphans ==>
      ChildNamespaceFor(hash, KindOf(k.gvr), c.objects[k].meta).namespace in c.namespaces
  }

  /** A namespace that was taken away, with what was in it. */
  datatype Removal = Removal(kind: ChildKind, owner: Meta, labels: Labels, inside: set<Key>, listed: seq<string>)

  ghost predicate Harmless(r: Removal) {
    LabelledFor(r.kind, r.owner, r.labels) && forall k :: k in r.inside ==> k.gvr !in r.listed
  }

  function Inside(c: Cluster, namespace: string): set<Key> {
    set k | k in c.objects && k.namespace == namespace
  }

  /** How the error of a request came about: it was refused, or it took effect all the same. */
  datatype Fault = Fine | Refused | LostReply

  /** How the requests of a call fare. */
  datatype CreateTurn = CreateTurn(provided: Fault, written: Fault, ownershipRefused: bool, takenBack: Fault)
  datatype DeleteTurn = DeleteTurn(listRefusedAt: Option<nat>, deleted: Fault, ownershipRefused: bool, removed: Fault)

  datatype Created = New | Existed | Failed

  /** Adding, removing and marking, and what each keeps. */

  function AfterDelete(c: Cluster, key: Key): Cluster
    requires key in c.objects
  {
    if c.objects[key].finalizers then c.(objects := c.objects[key := c.objects[key].(deleting := true)])
    else c.(objects := c.objects - {key})
  }

  function Without(c: Cluster, namespace: string): Cluster {
    Cluster(c.namespaces - {namespace}, c.objects - Inside(c, namespace))
  }

  ghost predicate Sound(hash: Hash, installed: set<string>, c: Cluster, orphans: set<Key>) {
    && CollisionFree(hash) && Housed(hash, c) && Provisioned(hash, c, orphans)
    && forall k :: k in c.objects ==> k.gvr in installed
  }

  /** What a creation leaves behind: the object or not, and the namespace or not. */
  lemma CreationKeeps(hash: Hash, installed: set<string>, c: Cluster, d: Cluster, orphans: set<Key>,
                      child: Child, key: Key, obj: Obj)
    requires Sound(hash, installed, c, orphans)
    requires d.namespaces == c.namespaces || d.namespaces == c.namespaces[child.namespace := child.labels]
    requires d.objects == c.objects || d.objects == c.objects[key := obj]
    requires d.objects != c.objects ==> key !in c.objects && key.namespace in c.namespaces && key.gvr in installed
    requires KindOf(key.gvr) != NoChildNamespace ==>
               && key == HomeOf(hash, key.gvr, obj.meta) && ValidMeta(KindOf(key.gvr), obj.meta) && !obj.deleting
               && child.namespace == ChildNamespaceFor(hash, KindOf(key.gvr), obj.meta).namespace
    ensures d.objects == c.objects ==> Sound(hash, installed, d, orphans)
    ensures d.objects != c.objects ==> Sound(hash, installed, d, orphans + {key})
    ensures (KindOf(key.gvr) == NoChildNamespace || child.namespace in d.namespaces) && d.objects != c.objects ==>
              Sound(hash, installed, d, orphans) && Sound(hash, installed, d, orphans - {key})
    ensures KindOf(key.gvr) != NoChildNamespace && child.namespace !in d.namespaces && d.objects != c.objects ==>
              !Sound(hash, installed, d, orphans - {key})
  {
    hide Sound, ChildNamespaceFor, HomeOf, ValidMeta;
    NamespaceAdded(hash, installed, c, orphans, child.namespace, child.labels);
    var e := c.(namespaces := d.namespaces);
    if d.objects == c.objects {
      assert d == e;
    } else {
      ObjectAdded(hash, installed, e, orphans, key, obj);
      assert d == e.(objects := e.objects[key := obj]);
    }
  }

  /** Everything else in order, what is left to ask is whether the resources have their namespaces. */
  lemma OrphansAside(hash: Hash, installed: set<string>, c: Cluster, orphans: set<Key>, fewer: set<Key>)
    requires Sound(hash, installed, c, orphans)
    ensures Sound(hash, installed, c, fewer) <==> Provisioned(hash, c, fewer)
  {
    hide Provisioned, Housed;
  }

  lemma NamespaceAdded(hash: Hash, installed: set<string>, c: Cluster, orphans: set<Key>, name: string, labels: Labels)
    requires Sound(hash, installed, c, orphans)
    ensures Sound(hash, installed, c.(namespaces := c.namespaces[name := labels]), orphans)
    ensures name !in c.namespaces ==>
              Inside(c, name) == {} && Without(c.(namespaces := c.namespaces[name := labels]), name) == c
  {
    var d := c.(namespaces := c.namespaces[name := labels]);
    if name !in c.namespaces {
      assert Inside(d, name) == {} && Inside(c, name) == {};
      assert d.namespaces - {name} == c.namespaces;
    }
  }

  lemma ObjectAdded(hash: Hash, installed: set<string>, c: Cluster, orphans: set<Key>, key: Key, obj: Obj)
    requires Sound(hash, installed, c, orphans) && key !in c.objects && key.namespace in c.namespaces &&
               key.gvr in installed
    requires KindOf(key.gvr) != NoChildNamespace ==>
               && key == HomeOf(hash, key.gvr, obj.meta) && ValidMeta(KindOf(key.gvr), obj.meta) && !obj.deleting
    ensures var d := c.(objects := c.objects[key := obj]);
            && Sound(hash, installed, d, orphans + {key})
            && (Sound(hash, installed, d, orphans - {key}) ==> Sound(hash, installed, d, orphans))
            && ((KindOf(key.gvr) != NoChildNamespace && !obj.deleting ==>
                   ChildNamespaceFor(hash, KindOf(key.gvr), obj.meta).namespace in c.namespaces)
                <==> Sound(hash, installed, d, orphans - {key}))
  {
    hide ChildNamespaceFor, HomeOf, CollisionFree;
    var d := c.(objects := c.objects[key := obj]);
    assert d.objects[key] == obj;
  }

  lemma ObjectDeleted(hash: Hash, installed: set<string>, c: Cluster, orphans: set<Key>, key: Key)
    requires Sound(hash, installed, c, orphans) && key in c.objects
    ensures Sound(hash, installed, AfterDelete(c, key), orphans)
    ensures key in AfterDelete(c, key).objects ==> AfterDelete(c, key).objects[key].deleting
  {
    hide ChildNamespaceFor, HomeOf, CollisionFree;
  }

  /** A child namespace may go only once its owner is gone or under deletion. */
  lemma NamespaceRemoved(hash: Hash, installed: set<string>, c: Cluster, orphans: set<Key>, gvr: string, m: Meta)
    requires Sound(hash, installed, c, orphans) && KindOf(gvr) != NoChildNamespace && ValidMeta(KindOf(gvr), m)
    ensures var key := HomeOf(hash, gvr, m);
            (key in c.objects ==> c.objects[key].deleting) ==>
            Sound(hash, installed, Without(c, ChildNamespaceFor(hash, KindOf(gvr), m).namespace), orphans)
  {
    var key, name := HomeOf(hash, gvr, m), ChildNamespaceFor(hash, KindOf(gvr), m).namespace;
    forall k | k in c.objects && KindOf(k.gvr) != NoChildNamespace
             && ChildNamespaceFor(hash, KindOf(k.gvr), c.objects[k].meta).namespace == name
      ensures k == key
    {
      ChildrenShareNoNamespace(hash, KindOf(k.gvr), c.objects[k].meta, KindOf(gvr), m);
      assert k.gvr == gvr;
    }
  }

  /** A workspace cannot be deleted as long as it has a network. */
  lemma NetworkBlocksWorkspace(hash: Hash, c: Cluster, k: Key)
    requires CollisionFree(hash) && Housed(hash, c) && k in c.objects && k.gvr == NETWORKS
    ensures var m := c.objects[k].meta;
            HasListed(c, ChildNamespaceFor(hash, WorkspaceChildren, Meta(m.tenant, "", m.workspace)).namespace,
                      WORKSPACE_ADAPTER.childGVRs)
  {
    var m := c.objects[k].meta;
    ChildIsElsewhere(hash, WORKSPACES, Meta(m.tenant, "", m.workspace));
    assert WORKSPACE_ADAPTER.childGVRs[2] == NETWORKS;
    assert k in Inside(c, k.namespace);
  }

  ghost predicate HasListed(c: Cluster, namespace: string, gvrs: seq<string>) {
    namespace != "" && exists k :: k in Inside(c, namespace) && k.gvr in gvrs
  }

  /** What a delete call may take: the object, and an empty and owned child namespace. */
  ghost predicate Took(before: Cluster, after: Cluster, a: Adapter, m: Meta, child: Child, key: Key) {
    && (forall n :: n in after.namespaces ==> n in before.namespaces && after.namespaces[n] == before.namespaces[n])
    && (forall n :: n in before.namespaces && n !in after.namespaces ==>
          n == child.namespace && LabelledFor(a.kind, m, before.namespaces[n]) && !HasListed(before, n, a.childGVRs))
    && (forall k :: k in before.objects && k !in after.objects ==>
          k == key || (k.namespace == child.namespace && k.namespace !in after.namespaces && k.gvr !in a.childGVRs))
    && (forall k :: k in after.objects ==> k in before.objects && (k != key ==> after.objects[k] == before.objects[k]))
  }

  lemma NothingTaken(c: Cluster, a: Adapter, m: Meta, child: Child, key: Key)
    ensures Took(c, c, a, m, child, key)
  {
  }

  lemma DeletionTakes(c: Cluster, a: Adapter, m: Meta, child: Child, key: Key)
    requires key in c.objects
    ensures var d := AfterDelete(c, key);
            && Took(c, d, a, m, child, key)
            && (!HasListed(c, child.namespace, a.childGVRs) ==> !HasListed(d, child.namespace, a.childGVRs))
            && (!HasListed(c, child.namespace, a.childGVRs) && child.namespace != ""
                && child.namespace in c.namespaces && LabelledFor(a.kind, m, c.namespaces[child.namespace]) ==>
                  Took(c, Without(d, child.namespace), a, m, child, key))
            && (key in Without(d, child.namespace).objects ==>
                  key in d.objects && Without(d, child.namespace).objects[key] == d.objects[key])
            && d.namespaces == c.namespaces
  {
    hide LabelledFor;
    var d := AfterDelete(c, key);
    assert forall k :: k in Inside(d, child.namespace) ==> k in Inside(c, child.namespace);
    assert forall k :: k in d.objects && k.namespace == child.namespace ==> k in Inside(d, child.namespace);
  }

  lemma CallSetup(hash: Hash, installed: set<string>, c: Cluster, orphans: set<Key>, a: Adapter, m: Meta)
    requires Sound(hash, installed, c, orphans) && a.kind == KindOf(a.gvr) && ValidMeta(a.kind, m)
    ensures a.kind == NoChildNamespace <==> ChildNamespaceFor(hash, a.kind, m).namespace == ""
    ensures HomeOf(hash, a.gvr, m).gvr == a.gvr
    ensures a.kind != NoChildNamespace ==>
              HomeOf(hash, a.gvr, m).namespace != ChildNamespaceFor(hash, a.kind, m).namespace
  {
    if a.kind != NoChildNamespace {
      ChildIsElsewhere(hash, a.gvr, m);
    }
  }

  class Api {
    const hash: Hash
    const installed: set<string>
    var c: Cluster
    ghost var removals: seq<Removal>
    // Live resources whose namespace was taken back although they had been created.
    ghost var orphans: set<Key>

    constructor (hash: Hash, installed: set<string>, c: Cluster)
      ensures this.hash == hash && this.installed == installed && this.c == c
      ensures removals == [] && orphans == {}
    {
      this.hash, this.installed, this.c, removals, orphans := hash, installed, c, [], {};
    }

    /** What holds between calls. */
    ghost predicate Safe()
      reads this
    {
      Sound(hash, installed, c, orphans) && forall r :: r in removals ==> Harmless(r)
    }

    // Single requests.

    predicate Accepts(c: Cluster, key: Key) {
      key !in c.objects && key.namespace in c.namespaces && key.gvr in installed
    }

    /** It is no error if the namespace is there already. */
    method CreateNamespace(name: string, labels: Labels, fault: Fault) returns (r: Created)
      modifies this`c
      ensures r.Failed? <==> name == "" || !fault.Fine?
      ensures r.Existed? ==> name in old(c).namespaces
      ensures r.New? ==> name !in old(c).namespaces
      ensures c == if name != "" && !fault.Refused? && name !in old(c).namespaces
                   then old(c).(namespaces := old(c).namespaces[name := labels]) else old(c)
    {
      if name == "" || fault.Refused? {
        return Failed;
      }
      if name in c.namespaces {
        return if fault.Fine? then Existed else Failed;
      }
      c := c.(namespaces := c.namespaces[name := labels]);
      return if fault.Fine? then New else Failed;
    }

    /** Creates an object that is not there yet, in a namespace that exists. */
    method PutObject(key: Key, obj: Obj, fault: Fault) returns (ok: bool)
      modifies this`c
      ensures ok <==> fault.Fine? && Accepts(old(c), key)
      ensures c == if !fault.Refused? && Accepts(old(c), key)
                   then old(c).(objects := old(c).objects[key := obj]) else old(c)
    {
      if fault.Refused? || !Accepts(c, key) {
        return false;
      }
      c := c.(objects := c.objects[key := obj]);
      return fault.Fine?;
    }

    /** Deletes an object, or marks it if it has finalizers. */
    method DeleteObject(key: Key, fault: Fault) returns (ok: bool)
      modifies this`c
      ensures ok <==> fault.Fine? && key in old(c).objects
      ensures c == if fault.Refused? || key !in old(c).objects then old(c) else AfterDelete(old(c), key)
      ensures !fault.Refused? && key in old(c).objects ==>
                && (key in c.objects <==> old(c).objects[key].finalizers)
                && (key in c.objects ==> c.objects[key] == old(c).objects[key].(deleting := true))
    {
      if fault.Refused? || key !in c.objects {
        return false;
      }
      c := AfterDelete(c, key);
      return fault.Fine?;
    }

    /** Only an installed kind can be listed. */
    method ListIsEmpty(namespace: string, gvr: string) returns (empty: bool)
      requires gvr in installed
      ensures empty <==> forall k :: k in Inside(c, namespace) ==> k.gvr != gvr
    {
      empty := forall k :: k in Inside(c, namespace) ==> k.gvr != gvr;
    }

    /** Takes a namespace away with everything in it; it is no error if it is not there. */
    method DeleteNamespace(name: string, fault: Fault, ghost kind: ChildKind, ghost owner: Meta,
                           ghost listed: seq<string>)
      returns (ok: bool)
      modifies this`c, this`removals
      ensures ok <==> name == "" || fault.Fine?
      ensures c == if name != "" && !fault.Refused? && name in old(c).namespaces then Without(old(c), name) else old(c)
      ensures c == old(c) ==> removals == old(removals)
      ensures c != old(c) ==>
                removals == old(removals) +
                  [Removal(kind, owner, old(c).namespaces[name], Inside(old(c), name), listed)]
    {
      if name == "" {
        return true;
      }
      if fault.Refused? {
        return false;
      }
      if name in c.namespaces {
        removals := removals + [Removal(kind, owner, c.namespaces[name], Inside(c, name), listed)];
        ghost var before := c;
        c := Without(c, name);
        assert name in before.namespaces && name !in c.namespaces;
      }
      return fault.Fine?;
    }

    // ---------- the two checks ----------

    /** Whether any of the kinds has an object in the namespace; a refused list request is an error. */
    method HasChildResources(namespace: string, gvrs: seq<string>, refusedAt: Option<nat>)
      returns (has: Option<bool>)
      requires forall k :: k in c.objects ==> k.gvr in installed
      ensures has == Some(true) ==> exists k :: k in Inside(c, namespace) && k.gvr in gvrs
      ensures has == Some(false) && namespace != "" ==> forall k :: k in Inside(c, namespace) ==> k.gvr !in gvrs
      ensures namespace == "" ==> has == Some(false)
      ensures refusedAt.None? ==> has.Some?
      ensures has.None? <==>
              && namespace != "" && refusedAt.Some? && refusedAt.value < |gvrs|
              && forall k :: k in Inside(c, namespace) ==> k.gvr !in gvrs[..refusedAt.value]
    {
      if namespace == "" || |gvrs| == 0 {
        return Some(false);
      }
      for i := 0 to |gvrs|
        invariant forall k :: k in Inside(c, namespace) ==> k.gvr !in gvrs[..i]
        invariant refusedAt.Some? ==> i <= refusedAt.value
      {
        if refusedAt == Some(i) {
          return None;
        }
        if gvrs[i] !in installed {
          continue;
        }
        var empty := ListIsEmpty(namespace, gvrs[i]);
        if !empty {
          return Some(true);
        }
        assert gvrs[..i + 1] == gvrs[..i] + [gvrs[i]];
      }
      assert gvrs[..|gvrs|] == gvrs;
      return Some(false);
    }

    method OwnedBy(name: string, expected: Labels, refused: bool) returns (owned: Option<bool>)
      ensures owned.None? <==> refused
      ensures owned.Some? ==> (owned.value <==> name in c.namespaces && Owns(expected, c.namespaces[name]))
    {
      if refused {
        return None;
      }
      if name !in c.namespaces {
        return Some(false);
      }
      var labels, todo := c.namespaces[name], expected.Keys;
      while todo != {}
        invariant todo <= expected.Keys
        invariant forall k :: k in expected && k !in todo ==> k in labels && labels[k] == expected[k]
        decreases |todo|
      {
        var k :| k in todo;
        if k !in labels || labels[k] != expected[k] {
          return Some(false);
        }
        todo := todo - {k};
      }
      return Some(true);
    }

    // ---------- the calls ----------

    /** The call brings the child namespace into being, whether it learns of it or not. */
    predicate Provides(c: Cluster, child: Child, turn: CreateTurn) {
      child.namespace != "" && child.namespace !in c.namespaces && !turn.provided.Refused?
    }

    /** If the object cannot be created, the namespace is taken back, whether that is acknowledged or not. */
    predicate TakesBack(turn: CreateTurn) {
      turn.provided.Fine? && !turn.ownershipRefused && !turn.takenBack.Refused?
    }

    /** The object is created, but its creation is reported as failed, and the new namespace is taken back. */
    predicate Orphans(c: Cluster, a: Adapter, m: Meta, turn: CreateTurn) {
      && Provides(c, ChildNamespaceFor(hash, a.kind, m), turn) && TakesBack(turn)
      && turn.written.LostReply? && Accepts(c, HomeOf(hash, a.gvr, m))
    }

    /**
      Everything stays in order; the call makes an orphan exactly if the namespace is new, the object
      was created although its creation is reported as failed, and the rollback then takes the
      namespace away again. A failed call leaves the namespaces as they were unless it provided one
      without learning of it, or the rollback has no effect.
     */
    method Create(a: Adapter, m: Meta, finalizers: bool, turn: CreateTurn) returns (ok: bool)
      requires Safe() && a.kind == KindOf(a.gvr) && ValidMeta(a.kind, m)
      modifies this
      ensures Safe()
      ensures var child, key := ChildNamespaceFor(hash, a.kind, m), HomeOf(hash, a.gvr, m);
              && orphans == (if Orphans(old(c), a, m, turn) then old(orphans) + {key}
                             else if ok then old(orphans) - {key} else old(orphans))
              && (old(orphans) == {} ==> (Provisioned(hash, c, {}) <==> !Orphans(old(c), a, m, turn)))
              && (!ok ==> (c.namespaces == old(c).namespaces <==> !(Provides(old(c), child, turn) && !TakesBack(turn))))
              && (ok ==> Accepts(old(c), key) && c.objects == old(c).objects[key := Obj(m, false, finalizers)]
                         && (a.kind != NoChildNamespace ==> child.namespace in c.namespaces))
    {
      CallSetup(hash, installed, c, orphans, a, m);
      hide ChildNamespaceFor, ValidMeta, Sound, Harmless, HomeOf;
      var child, key, obj := ChildNamespaceFor(hash, a.kind, m), HomeOf(hash, a.gvr, m), Obj(m, false, finalizers);
      ghost var start := c;
      ok := Register(a, child, key, obj, turn);
      CreationKeeps(hash, installed, start, c, orphans, child, key, obj);
      if Orphans(start, a, m, turn) {
        orphans := orphans + {key};
      } else if ok {
        orphans := orphans - {key};
      }
      OrphansAside(hash, installed, c, orphans, {});
    }

    /** The requests of a creation: the namespace, the object, and the rollback if that failed. */
    method Register(a: Adapter, child: Child, key: Key, obj: Obj, turn: CreateTurn) returns (ok: bool)
      requires Sound(hash, installed, c, orphans) && (child.namespace == "" || key.namespace != child.namespace)
      requires child == ChildNamespaceFor(hash, a.kind, obj.meta)
      modifies this`c, this`removals
      ensures var passes := child.namespace == "" || turn.provided.Fine?;
              && (ok <==> passes && turn.written.Fine? && Accepts(old(c), key))
              && c.objects == (if passes && !turn.written.Refused? && Accepts(old(c), key)
                               then old(c).objects[key := obj] else old(c).objects)
              && c.namespaces == (if Provides(old(c), child, turn) && (ok || !TakesBack(turn))
                                  then old(c).namespaces[child.namespace := child.labels] else old(c).namespaces)
      ensures (forall r :: r in old(removals) ==> Harmless(r)) ==> forall r :: r in removals ==> Harmless(r)
    {
      hide Sound, Harmless;
      if child.namespace == "" {
        ok := PutObject(key, obj, turn.written);
        return;
      }
      ghost var start := c;
      var created := CreateNamespace(child.namespace, child.labels, turn.provided);
      if created.Failed? {
        return false;
      }
      ok := PutObject(key, obj, turn.written);
      if !ok && created.New? {
        Rollback(a, child, key, obj, turn, start);
      }
    }

    /** Takes back the namespace that was just created, with the object in it or not. */
    method Rollback(a: Adapter, child: Child, ghost key: Key, ghost obj: Obj, turn: CreateTurn, ghost start: Cluster)
      requires Sound(hash, installed, start, orphans) && child.namespace != "" && child.namespace !in start.namespaces
      requires child == ChildNamespaceFor(hash, a.kind, obj.meta)
      requires key.namespace != child.namespace
      requires var created := start.(namespaces := start.namespaces[child.namespace := child.labels]);
               c == created || c == created.(objects := created.objects[key := obj])
      modifies this`c, this`removals
      ensures c == if turn.ownershipRefused || turn.takenBack.Refused?
                   then old(c) else old(c).(namespaces := start.namespaces)
      ensures (forall r :: r in old(removals) ==> Harmless(r)) ==> forall r :: r in removals ==> Harmless(r)
    {
      OwnsIffLabelled(hash, a.kind, obj.meta, child.labels);
      hide ChildNamespaceFor, LabelledFor;
      var owned := OwnedBy(child.namespace, child.labels, turn.ownershipRefused);
      assert c.namespaces[child.namespace] == child.labels;
      NamespaceAdded(hash, installed, start, orphans, child.namespace, child.labels);
      assert Inside(c, child.namespace) == {} by {
        assert forall k :: k in start.objects ==> k.namespace in start.namespaces;
      }
      if owned == Some(true) {
        ghost var before := c;
        var _ := DeleteNamespace(child.namespace, turn.takenBack, a.kind, obj.meta, a.childGVRs);
        assert c.objects == before.objects;
        if !turn.takenBack.Refused? {
          assert c.namespaces == start.namespaces;
        }
      }
    }

    /**
      A namespace goes only if it is empty of listed kinds and carries the labels of its owner, and
      only after the owner is gone or under deletion; nothing else is lost.
     */
    method Delete(a: Adapter, m: Meta, turn: DeleteTurn) returns (ok: bool)
      requires Safe() && a.kind == KindOf(a.gvr) && ValidMeta(a.kind, m)
      modifies this`c, this`removals
      ensures Safe()
      ensures var child, key := ChildNamespaceFor(hash, a.kind, m), HomeOf(hash, a.gvr, m);
              && Took(old(c), c, a, m, child, key)
              && (HasListed(old(c), child.namespace, a.childGVRs) ==> !ok && c == old(c))
              && (ok ==> key in old(c).objects)
              && (ok && key in c.objects ==> c.objects[key].deleting && old(c).objects[key].finalizers)
              && (ok && child.namespace != "" && child.namespace in c.namespaces ==>
                  !LabelledFor(a.kind, m, c.namespaces[child.namespace]))
              && (turn == DeleteTurn(None, Fine, false, Fine) ==>
                    (ok <==> key in old(c).objects && !HasListed(old(c), child.namespace, a.childGVRs)))
    {
      CallSetup(hash, installed, c, orphans, a, m);
      var child, key := ChildNamespaceFor(hash, a.kind, m), HomeOf(hash, a.gvr, m);
      if child.namespace != "" {
        var has := HasChildResources(child.namespace, a.childGVRs, turn.listRefusedAt);
        if has.None? || has.value {
          return false;
        }
      }
      hide ChildNamespaceFor, HomeOf, ValidMeta, Sound, HasListed, Took, AfterDelete, LabelledFor;
      NothingTaken(c, a, m, child, key);
      if key in c.objects {
        ObjectDeleted(hash, installed, c, orphans, key);
        DeletionTakes(c, a, m, child, key);
      }
      var deleted := DeleteObject(key, turn.deleted);
      if !deleted {
        return false;
      }
      if child.namespace == "" {
        return true;
      }
      NamespaceRemoved(hash, installed, c, orphans, a.gvr, m);
      ok := DropChildNamespace(a, m, child, turn);
    }

    /** The second half of a deletion. */
    method DropChildNamespace(a: Adapter, ghost m: Meta, child: Child, turn: DeleteTurn) returns (ok: bool)
      requires child == ChildNamespaceFor(hash, a.kind, m)
      requires Safe() && child.namespace != "" && !HasListed(c, child.namespace, a.childGVRs)
      requires Sound(hash, installed, Without(c, child.namespace), orphans)
      modifies this`c, this`removals
      ensures Safe()
      ensures var spaces := old(c).namespaces;
              var owned := child.namespace in spaces && LabelledFor(a.kind, m, spaces[child.namespace]);
              && (ok <==> !turn.ownershipRefused && (owned ==> turn.removed.Fine?))
              && c == if owned && !turn.ownershipRefused && !turn.removed.Refused?
                      then Without(old(c), child.namespace) else old(c)
    {
      if child.namespace in c.namespaces {
        OwnsIffLabelled(hash, a.kind, m, c.namespaces[child.namespace]);
      }
      hide Sound, Inside, ChildNamespaceFor, LabelledFor;
      var owned := OwnedBy(child.namespace, child.labels, turn.ownershipRefused);
      if owned.None? {
        return false;
      }
      if !owned.value {
        return true;
      }
      ok := DeleteNamespace(child.namespace, turn.removed, a.kind, m, a.childGVRs);
    }

    // ---------- runs ----------

    /** The controller takes the last finalizer off an object under deletion, and it is gone. */
    method Finalize(key: Key)
      requires Safe()
      modifies this`c
      ensures Safe()
      ensures c == if key in old(c).objects && old(c).objects[key].deleting
                   then old(c).(objects := old(c).objects - {key}) else old(c)
    {
      if key in c.objects && c.objects[key].deleting {
        hide ChildNamespaceFor, HomeOf, CollisionFree;
        c := c.(objects := c.objects - {key});
      }
    }

    /** Somebody creates a namespace or changes the labels of one. */
    method Label(name: string, labels: Labels)
      requires Safe()
      modifies this`c
      ensures Safe() && c == old(c).(namespaces := old(c).namespaces[name := labels])
    {
      NamespaceAdded(hash, installed, c, orphans, name, labels);
      c := c.(namespaces := c.namespaces[name := labels]);
    }

    /** A child in the namespace of its network or workspace comes and goes. */
    method PutChild(key: Key, obj: Obj, fault: Fault)
      requires Safe() && KindOf(key.gvr) == NoChildNamespace
      modifies this`c
      ensures Safe()
      ensures c == if !fault.Refused? && Accepts(old(c), key)
                   then old(c).(objects := old(c).objects[key := obj]) else old(c)
    {
      if Accepts(c, key) {
        ObjectAdded(hash, installed, c, orphans, key, obj);
      }
      var _ := PutObject(key, obj, fault);
    }

    method DeleteChild(key: Key, fault: Fault)
      requires Safe() && KindOf(key.gvr) == NoChildNamespace
      modifies this`c
      ensures Safe()
      ensures c == if fault.Refused? || key !in old(c).objects then old(c) else AfterDelete(old(c), key)
    {
      if key in c.objects {
        ObjectDeleted(hash, installed, c, orphans, key);
      }
      var _ := DeleteObject(key, fault);
    }

    /**
      Any sequence of whole calls: every live workspace and network keeps its child namespace, except
      for those whose creation took effect but was reported as failed.
     */
    method Drive(calls: seq<Call>)
      requires Safe() && forall i :: 0 <= i < |calls| ==> Proper(calls[i])
      modifies this
      ensures Safe()
      ensures forall k :: k in orphans && k !in old(orphans) ==> ReplyLost(hash, calls, k)
    {
      for i := 0 to |calls|
        invariant Safe()
        invariant forall k :: k in orphans && k !in old(orphans) ==> ReplyLost(hash, calls[..i], k)
      {
        hide Safe, Proper, LosesReply;
        OneMoreCall(hash, calls, i);
        Perform(calls[i]);
      }
      assert calls[..|calls|] == calls;
    }

    method Perform(call: Call)
      requires Safe() && Proper(call)
      modifies this
      ensures Safe()
      ensures forall k :: k in orphans && k !in old(orphans) ==> LosesReply(hash, call, k)
    {
      hide Safe, ValidMeta, HomeOf, ChildNamespaceFor, Provisioned;
      match call
      case Create(a, m, finalizers, turn) => var _ := Create(a, m, finalizers, turn);
      case Delete(a, m, turn) => var _ := Delete(a, m, turn);
      case PutChild(key, obj, fault) => PutChild(key, obj, fault);
      case DeleteChild(key, fault) => DeleteChild(key, fault);
      case Finalize(key) => Finalize(key);
      case Label(name, labels) => Label(name, labels);
    }

    /**
      Two creations of one workspace, or of one network, that overlap: the first provides the
      namespace, the second creates the resource, and the first then fails and takes the namespace
      back. No reply is lost, and the resource is an orphan all the same.
     */
    method OverlappingCreates(a: Adapter, m: Meta)
      requires a == WORKSPACE_ADAPTER || a == NETWORK_ADAPTER
      requires Safe() && orphans == {} && ValidMeta(a.kind, m)
      requires Accepts(c, HomeOf(hash, a.gvr, m))
      requires ChildNamespaceFor(hash, a.kind, m).namespace !in c.namespaces
      modifies this
      ensures HomeOf(hash, a.gvr, m) in c.objects && !Provisioned(hash, c, {})
    {
      CallSetup(hash, installed, c, orphans, a, m);
      var child, key, obj := ChildNamespaceFor(hash, a.kind, m), HomeOf(hash, a.gvr, m), Obj(m, false, true);
      hide ChildNamespaceFor, HomeOf;
      var first := CreateNamespace(child.namespace, child.labels, Fine);
      var second := CreateNamespace(child.namespace, child.labels, Fine);
      var secondWrote := PutObject(key, obj, Fine);
      var firstWrote := PutObject(key, obj, Fine);
      if first.New? && !firstWrote {
        var owned := OwnedBy(child.namespace, child.labels, false);
        if owned == Some(true) {
          var _ := DeleteNamespace(child.namespace, Fine, a.kind, m, a.childGVRs);
        }
      }
      assert c.objects[key] == obj && KindOf(key.gvr) == a.kind;
    }
  }

  /** Calls of the API server's clients. */
  datatype Call =
    | Create(adapter: Adapter, meta: Meta, finalizers: bool, creation: CreateTurn)
    | Delete(adapter: Adapter, meta: Meta, deletion: DeleteTurn)
    | PutChild(key: Key, obj: Obj, fault: Fault)
    | DeleteChild(key: Key, fault: Fault)
    | Finalize(key: Key)
    | Label(name: string, labels: Labels)

  /** One of the calls creates the resource, and its reply is an error although it took effect. */
  ghost predicate ReplyLost(hash: Hash, calls: seq<Call>, key: Key) {
    exists i :: 0 <= i < |calls| && LosesReply(hash, calls[i], key)
  }

  ghost predicate LosesReply(hash: Hash, call: Call, key: Key) {
    call.Create? && call.creation.written.LostReply? && key == HomeOf(hash, call.adapter.gvr, call.meta)
  }

  lemma OneMoreCall(hash: Hash, calls: seq<Call>, n: nat)
    requires n < |calls|
    ensures forall k :: ReplyLost(hash, calls[..n + 1], k) <==>
              ReplyLost(hash, calls[..n], k) || LosesReply(hash, calls[n], k)
  {
    hide LosesReply;
    forall k
      ensures ReplyLost(hash, calls[..n + 1], k) <==> ReplyLost(hash, calls[..n], k) || LosesReply(hash, calls[n], k)
    {
      if ReplyLost(hash, calls[..n], k) {
        var i :| 0 <= i < n && LosesReply(hash, calls[..n][i], k);
        assert calls[..n + 1][i] == calls[..n][i];
      }
      if LosesReply(hash, calls[n], k) {
        assert calls[..n + 1][n] == calls[n];
      }
      if ReplyLost(hash, calls[..n + 1], k) && !LosesReply(hash, calls[n], k) {
        var i :| 0 <= i <= n && LosesReply(hash, calls[..n + 1][i], k);
        assert calls[..n][i] == calls[..n + 1][i];
      }
    }
  }

  ghost predicate Proper(call: Call) {
    match call
    case Create(a, m, _, _) => a.kind == KindOf(a.gvr) && ValidMeta(a.kind, m)
    case Delete(a, m, _) => a.kind == KindOf(a.gvr) && ValidMeta(a.kind, m)
    case PutChild(key, _, _) => KindOf(key.gvr) == NoChildNamespace
    case DeleteChild(key, _) => KindOf(key.gvr) == NoChildNamespace
    case _ => true
  }
}
