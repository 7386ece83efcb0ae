/**
  Finding the provider subnet behind a subnet reference. A reference that names its network picks one
  subnet; a bare name is refused when it could mean subnets of different networks. The answer must not
  depend on the order in which the subnets are listed.
 */
module Subnets {
  import opened Prelude
  import opened References

  datatype Subnet = Subnet(
    namespace: string,
    name: string,
    tenant: string,
    workspace: string,
    network: string,
    vpc: Place,
    active: bool)

  // ---------- reading a reference ----------

  function LastSegment(resource: string): string {
    var i := LastSlash(resource);
    if i >= 0 then resource[i + 1..] else resource
  }

  /** The text between slashes, empty pieces included. */
  function Split(s: string): (parts: seq<string>)
    ensures parts != []
    decreases |s|
  {
    var i := LastSlash(s);
    if i < 0 then [s] else Split(s[..i]) + [s[i + 1..]]
  }

  function NetworkOf(parts: seq<string>): string {
    var i := Find(parts, "networks");
    if i < 0 then "" else parts[i + 1]
  }

  method ReferenceNetwork(resource: string) returns (network: string)
    ensures network == NetworkOf(Split(resource))
  {
    var parts := Split(resource);
    var i := 0;
    while i + 1 < |parts|
      invariant 0 <= i < |parts|
      invariant Find(parts, "networks") ==
                  if Find(parts[i..], "networks") < 0 then -1 else i + Find(parts[i..], "networks")
    {
      if parts[i] == "networks" {
        return parts[i + 1];
      }
      assert parts[i..][1..] == parts[i + 1..];
      i := i + 1;
    }
    return "";
  }

  lemma {:induction false} SplitUndoesJoin(segs: seq<string>)
    requires segs != [] && forall s :: s in segs ==> SlashFree(s)
    ensures Split(Join(segs)) == segs
  {
    var front, last := segs[..|segs| - 1], segs[|segs| - 1];
    assert last in segs && segs == front + [last];
    if front == [] {
      LastSlashOfOne(last);
    } else {
      assert forall s :: s in front ==> s in segs;
      LastSlashOfJoin(front, last);
      SplitUndoesJoin(front);
      CutBeforeLast(Join(front), last);
    }
  }

  lemma CutBeforeLast(front: string, last: string)
    ensures (front + "/" + last)[..|front|] == front && (front + "/" + last)[|front| + 1..] == last
  {
  }

  /** On a path of segments: the name is the last one, the network the one after "networks". */
  lemma ReferenceReads(segs: seq<string>)
    requires segs != [] && forall s :: s in segs ==> SlashFree(s)
    ensures LastSegment(Join(segs)) == segs[|segs| - 1]
    ensures NetworkOf(Split(Join(segs))) == if Find(segs, "networks") < 0 then "" else segs[Find(segs, "networks") + 1]
  {
    SplitUndoesJoin(segs);
    LastOfJoin(segs);
  }

  lemma LastOfJoin(segs: seq<string>)
    requires segs != [] && forall s :: s in segs ==> SlashFree(s)
    ensures LastSegment(Join(segs)) == segs[|segs| - 1]
  {
    hide LastSlash, Join, LastSegment;
    var front, last := segs[..|segs| - 1], segs[|segs| - 1];
    assert last in segs && segs == front + [last];
    if front == [] {
      NoSlashAtAll(last);
    } else {
      LastSlashOfJoin(front, last);
      AfterSlash(Join(segs), Join(front), last);
    }
  }

  lemma NoSlashAtAll(last: string)
    requires SlashFree(last)
    ensures Join([] + [last]) == last && LastSegment(last) == last
  {
    LastSlashOfOne(last);
    hide LastSlash;
    assert [] + [last] == [last];
  }

  lemma AfterSlash(path: string, front: string, last: string)
    requires LastSlash(path) == |front| && path == front + "/" + last
    ensures LastSegment(path) == last
  {
    hide LastSlash;
    CutBeforeLast(front, last);
  }

  // ---------- resolving ----------

  datatype Resolution =
    | Resolved(subnet: Subnet)
    | Ambiguous(first: string, second: string)
    | NotReady

  predicate Candidate(s: Subnet, tenant: string, workspace: string, name: string) {
    s.tenant == tenant && s.workspace == workspace && s.name == name && s.active
  }

  predicate InNetwork(s: Subnet, wanted: string) {
    wanted == "" || s.network == wanted
  }

  /** What the answer has to be, in terms of which subnets exist. */
  ghost predicate Answers(list: seq<Subnet>, tenant: string, workspace: string, resource: string, r: Resolution) {
    var name, wanted := LastSegment(resource), NetworkOf(Split(resource));
    match r
    case NotReady =>
      forall s :: s in list && Candidate(s, tenant, workspace, name) ==> !InNetwork(s, wanted)
    case Resolved(subnet) =>
      && subnet in list && Candidate(subnet, tenant, workspace, name) && InNetwork(subnet, wanted)
      && (wanted == "" ==> forall s :: s in list && Candidate(s, tenant, workspace, name) ==>
          s.network == subnet.network)
    case Ambiguous(first, second) =>
      && wanted == "" && first != second
      && (exists s :: s in list && Candidate(s, tenant, workspace, name) && s.network == first)
      && (exists s :: s in list && Candidate(s, tenant, workspace, name) && s.network == second)
  }

  /** The provider lists by the labels of tenant and workspace, in no particular order. */
  method ResolveSubnet(cluster: seq<Subnet>, tenant: string, workspace: string, resource: string)
    returns (r: Resolution)
    ensures Answers(cluster, tenant, workspace, resource, r)
  {
    var list := Filter(cluster, (s: Subnet) => s.tenant == tenant && s.workspace == workspace);
    var name := LastSegment(resource);
    var wanted := ReferenceNetwork(resource);
    var found := None;
    for i := 0 to |list|
      invariant wanted != "" ==> found == None
      invariant wanted != "" ==>
                  forall j :: 0 <= j < i && Candidate(list[j], tenant, workspace, name) ==> list[j].network != wanted
      invariant found.Some? ==> found.value in list && Candidate(found.value, tenant, workspace, name)
      invariant wanted == "" ==>
                  forall j :: 0 <= j < i && Candidate(list[j], tenant, workspace, name) ==>
                    found.Some? && list[j].network == found.value.network
    {
      var subnet := list[i];
      assert subnet in list;
      if subnet.name != name || !subnet.active {
        continue;
      }
      if wanted != "" {
        if subnet.network == wanted {
          return Resolved(subnet);
        }
        continue;
      }
      if found.Some? && found.value.network != subnet.network {
        return Ambiguous(found.value.network, subnet.network);
      }
      found := Some(subnet);
    }
    assert forall s :: s in cluster && Candidate(s, tenant, workspace, name) ==> s in list;
    r := if found.None? then NotReady else Resolved(found.value);
  }

  /**
    For every order of the listed subnets the answer is of the same kind and in the same network. It is
    a refusal exactly for a bare name with active subnets in different networks.
   */
  lemma OrderDoesNotMatter(a: seq<Subnet>, b: seq<Subnet>, tenant: string, workspace: string, resource: string,
                           ra: Resolution, rb: Resolution)
    requires multiset(a) == multiset(b)
    requires Answers(a, tenant, workspace, resource, ra) && Answers(b, tenant, workspace, resource, rb)
    ensures ra.Resolved? == rb.Resolved? && ra.Ambiguous? == rb.Ambiguous?
    ensures ra.Resolved? ==> ra.subnet.network == rb.subnet.network
    ensures ra.Ambiguous? <==>
            && NetworkOf(Split(resource)) == ""
            && exists s, t :: s in a && t in a && s.network != t.network
                 && Candidate(s, tenant, workspace, LastSegment(resource)) &&
                     Candidate(t, tenant, workspace, LastSegment(resource))
  {
    assert forall s :: s in a <==> s in multiset(a);
    assert forall s :: s in b <==> s in multiset(b);
  }

  predicate SameName(s: Subnet, t: Subnet) {
    s.tenant == t.tenant && s.workspace == t.workspace && s.network == t.network && s.name == t.name
  }

  /** Where a network holds one subnet of a name, it is the very same subnet. */
  lemma SameSubnet(a: seq<Subnet>, b: seq<Subnet>, tenant: string, workspace: string, resource: string,
                   ra: Resolution, rb: Resolution)
    requires multiset(a) == multiset(b)
    requires Answers(a, tenant, workspace, resource, ra) && Answers(b, tenant, workspace, resource, rb)
    requires forall s, t :: s in a && t in a && SameName(s, t) ==> s == t
    ensures ra.Resolved? ==> ra == rb
  {
    assert forall s :: s in b <==> s in multiset(b);
    assert forall s :: s in a <==> s in multiset(a);
    OrderDoesNotMatter(a, b, tenant, workspace, resource, ra, rb);
  }
}
