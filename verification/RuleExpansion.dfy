/**
  Security rules fan out into provider rules, one per protocol, port and source, which are named by
  their position.
 */
module RuleExpansion {
  import opened Prelude
  import opened Tags
  import R = References

  // ---------- decimal text ----------

  predicate AllDigits(s: string) {
    forall i :: 0 <= i < |s| ==> '0' <= s[i] <= '9'
  }

  function Digit(n: nat): char
    requires n < 10
  {
    '0' + n as char
  }

  function Decimal(n: nat): (s: string)
    ensures s != "" && AllDigits(s)
  {
    if n < 10 then [Digit(n)] else Decimal(n / 10) + [Digit(n % 10)]
  }

  /** Reads a number written in decimal digits. */
  function ReadDecimal(s: string): nat
    requires AllDigits(s)
  {
    if s == "" then 0
    else
      10 * ReadDecimal(s[..|s| - 1]) + (s[|s| - 1] - '0') as nat
  }

  lemma {:induction false} ReadBack(n: nat)
    ensures ReadDecimal(Decimal(n)) == n
  {
    if n < 10 {
      assert Decimal(n)[..0] == "";
    } else {
      ReadBack(n / 10);
      assert Decimal(n)[..|Decimal(n)| - 1] == Decimal(n / 10);
    }
  }

  // ---------- rules ----------

  datatype Ports = Ports(from: nat, to: nat, list: seq<nat>)

  datatype Icmp = Icmp(kind: int, code: int)

  /** An inline rule of a group, or the spec of a standalone rule. */
  datatype SecaRule = SecaRule(
    direction: string,
    version: string,
    protocol: string,
    ports: Option<Ports>,
    icmp: Option<Icmp>,
    sources: seq<R.Reference>)

  datatype RuleSpec = RuleSpec(
    direction: string,
    protocol: string,
    portFrom: nat,
    portTo: nat,
    portList: seq<nat>,
    hasIcmp: bool,
    sources: seq<R.Reference>,
    labels: map<string, string>)

  datatype Target = Target(kind: string, value: string)

  datatype SecurityRule = SecurityRule(
    name: string,
    namespace: string,
    groupLabel: string,
    tags: seq<string>,
    protocol: string,
    port: string,
    direction: string,
    target: Target)

  function Normalized(r: SecaRule, labels: map<string, string>): RuleSpec {
    var ports := if r.ports.Some? then r.ports.value else Ports(0, 0, []);
    RuleSpec(r.direction, r.protocol, ports.from, ports.to, ports.list, r.icmp.Some?, r.sources, labels)
  }

  function InlineSpecs(rules: seq<SecaRule>, labels: map<string, string>): (specs: seq<RuleSpec>)
    ensures |specs| == |rules|
  {
    seq(|rules|, i requires 0 <= i < |rules| => Normalized(rules[i], labels))
  }

  method NormalizeInlineRules(rules: seq<SecaRule>, labels: map<string, string>) returns (out: seq<RuleSpec>)
    ensures out == InlineSpecs(rules, labels)
  {
    out := [];
    for i := 0 to |rules|
      invariant |out| == i && forall j :: 0 <= j < i ==> out[j] == Normalized(rules[j], labels)
    {
      var r := rules[i];
      var spec := RuleSpec(r.direction, r.protocol, 0, 0, [], false, r.sources, labels);
      if r.ports.Some? {
        spec := spec.(portFrom := r.ports.value.from, portTo := r.ports.value.to, portList := r.ports.value.list);
      }
      spec := spec.(hasIcmp := r.icmp.Some?);
      out := out + [spec];
    }
  }

  function UpperChar(c: char): char {
    if 'a' <= c <= 'z' then c - 'a' + 'A' else c
  }

  function ToLower(s: string): string {
    seq(|s|, i requires 0 <= i < |s| => LowerChar(s[i]))
  }

  function ToUpper(s: string): string {
    seq(|s|, i requires 0 <= i < |s| => UpperChar(s[i]))
  }

  // ---------- the three ways a rule fans out ----------

  function ArubaDirection(direction: string): string {
    if ToLower(direction) == "egress" then "Egress" else "Ingress"
  }

  function ArubaProtocols(protocol: string, hasIcmp: bool): seq<string> {
    var p := ToLower(protocol);
    if p == "tcp" then ["TCP"]
    else if p == "udp" then ["UDP"]
    else if p == "tcp+udp" then ["TCP", "UDP"]
    else if p == "icmp" then ["ICMP"]
    else if p == "" then (if hasIcmp then ["ICMP"] else ["ALL"])
    else [ToUpper(protocol)]
  }

  function PortTexts(list: seq<nat>): seq<string> {
    seq(|list|, i requires 0 <= i < |list| => Decimal(list[i]))
  }

  function ArubaPorts(r: RuleSpec, protocol: string): seq<string> {
    if protocol == "ICMP" then ["ALL"]
    else if |r.portList| > 0 then PortTexts(r.portList)
    else if r.portFrom > 0 || r.portTo > 0 then
      if r.portTo == 0 || r.portFrom == r.portTo then [Decimal(r.portFrom)]
      else [Decimal(r.portFrom) + "-" + Decimal(r.portTo)]
    else ["ALL"]
  }

  const GROUP_PREFIX := "security-groups/"
  const ANYWHERE := Target("Ip", "0.0.0.0/0")

  function ArubaTarget(source: R.Reference): Target {
    if GROUP_PREFIX <= source.resource then Target("SecurityGroup", source.resource[|GROUP_PREFIX|..])
    else Target("Ip", source.resource)
  }

  function ArubaTargets(sources: seq<R.Reference>): seq<Target> {
    if sources == [] then [ANYWHERE]
    else seq(|sources|, i requires 0 <= i < |sources| => ArubaTarget(sources[i]))
  }

  // ---------- the expansion ----------

  /** A provider rule before it has a name. */
  datatype Combo = Combo(protocol: string, port: string, direction: string, target: Target, labels: map<string, string>)

  function OverTargets(r: RuleSpec, protocol: string, port: string, targets: seq<Target>): seq<Combo> {
    seq(|targets|, i requires 0 <= i < |targets| =>
        Combo(protocol, port, ArubaDirection(r.direction), targets[i], r.labels))
  }

  function OverPorts(r: RuleSpec, protocol: string, ports: seq<string>): seq<Combo> {
    if ports == [] then []
    else OverPorts(r, protocol, ports[..|ports| - 1])
         + OverTargets(r, protocol, ports[|ports| - 1], ArubaTargets(r.sources))
  }

  function OverProtocols(r: RuleSpec, protocols: seq<string>): seq<Combo> {
    if protocols == [] then []
    else
      var last := protocols[|protocols| - 1];
      OverProtocols(r, protocols[..|protocols| - 1]) + OverPorts(r, last, ArubaPorts(r, last))
  }

  function Combos(rules: seq<RuleSpec>): seq<Combo> {
    if rules == [] then []
    else
      var last := rules[|rules| - 1];
      Combos(rules[..|rules| - 1]) + OverProtocols(last, ArubaProtocols(last.protocol, last.hasIcmp))
  }

  function RuleName(group: string, index: nat): string {
    group + "-r" + Decimal(index)
  }

  ghost function Named(c: Combo, group: string, namespace: string, index: nat): SecurityRule {
    SecurityRule(RuleName(group, index), namespace, group, TagsOf(c.labels), c.protocol, c.port, c.direction, c.target)
  }

  ghost function Expansion(rules: seq<RuleSpec>, group: string, namespace: string): (out: seq<SecurityRule>)
    ensures |out| == |Combos(rules)|
    ensures forall i :: 0 <= i < |out| ==> out[i] == Named(Combos(rules)[i], group, namespace, i)
  {
    seq(|Combos(rules)|, i requires 0 <= i < |Combos(rules)| => Named(Combos(rules)[i], group, namespace, i))
  }

  ghost predicate AllNamed(out: seq<SecurityRule>, cs: seq<Combo>, group: string, namespace: string) {
    |out| == |cs| && forall i :: 0 <= i < |cs| ==> out[i] == Named(cs[i], group, namespace, i)
  }

  lemma NamedGrows(out: seq<SecurityRule>, cs: seq<Combo>, group: string, namespace: string, rule: SecurityRule,
                   c: Combo)
    requires AllNamed(out, cs, group, namespace) && rule == Named(c, group, namespace, |out|)
    ensures AllNamed(out + [rule], cs + [c], group, namespace)
  {
  }

  lemma NextTarget(r: RuleSpec, protocol: string, port: string, targets: seq<Target>, l: nat, before: seq<Combo>)
    requires l < |targets|
    ensures before + OverTargets(r, protocol, port, targets[..l + 1])
         == before + OverTargets(r, protocol, port, targets[..l])
            + [Combo(protocol, port, ArubaDirection(r.direction), targets[l], r.labels)]
  {
  }

  lemma NothingOverNoTargets(r: RuleSpec, protocol: string, port: string, targets: seq<Target>, before: seq<Combo>)
    ensures before + OverTargets(r, protocol, port, targets[..0]) == before
  {
  }

  lemma NextPort(r: RuleSpec, protocol: string, ports: seq<string>, k: nat, before: seq<Combo>)
    requires k < |ports|
    ensures before + OverPorts(r, protocol, ports[..k + 1])
         == before + OverPorts(r, protocol, ports[..k]) + OverTargets(r, protocol, ports[k], ArubaTargets(r.sources))
  {
    assert ports[..k + 1][..k] == ports[..k];
  }

  lemma NextProtocol(r: RuleSpec, protocols: seq<string>, j: nat, before: seq<Combo>)
    requires j < |protocols|
    ensures before + OverProtocols(r, protocols[..j + 1])
         == before + OverProtocols(r, protocols[..j]) + OverPorts(r, protocols[j], ArubaPorts(r, protocols[j]))
  {
    assert protocols[..j + 1][..j] == protocols[..j];
  }

  method BuildSecurityRules(rules: seq<RuleSpec>, group: string, namespace: string) returns (out: seq<SecurityRule>)
    ensures out == Expansion(rules, group, namespace)
  {
    hide OverPorts, ArubaPorts, ArubaProtocols, Named;
    out := [];
    for i := 0 to |rules|
      invariant AllNamed(out, Combos(rules[..i]), group, namespace)
    {
      var r := rules[i];
      var protocols := ArubaProtocols(r.protocol, r.hasIcmp);
      ghost var done := Combos(rules[..i]);
      assert done + OverProtocols(r, protocols[..0]) == done;
      for j := 0 to |protocols|
        invariant AllNamed(out, done + OverProtocols(r, protocols[..j]), group, namespace)
      {
        out := AddProtocol(out, done + OverProtocols(r, protocols[..j]), r, protocols[j], group, namespace);
        NextProtocol(r, protocols, j, done);
      }
      assert protocols[..|protocols|] == protocols;
      assert rules[..i + 1][..i] == rules[..i];
    }
    assert rules[..|rules|] == rules;
  }

  /** The two inner loops: every port and every target of one protocol. */
  method AddProtocol(before: seq<SecurityRule>, ghost done: seq<Combo>, r: RuleSpec, protocol: string, group: string,
                     namespace: string)
    returns (out: seq<SecurityRule>)
    requires AllNamed(before, done, group, namespace)
    ensures AllNamed(out, done + OverPorts(r, protocol, ArubaPorts(r, protocol)), group, namespace)
  {
    hide ArubaPorts, ArubaTargets, ArubaDirection, OverTargets, AllNamed;
    out := before;
    var ports := ArubaPorts(r, protocol);
    assert done + OverPorts(r, protocol, ports[..0]) == done;
    for k := 0 to |ports|
      invariant AllNamed(out, done + OverPorts(r, protocol, ports[..k]), group, namespace)
    {
      out := AddPort(out, done + OverPorts(r, protocol, ports[..k]), r, protocol, ports[k], group, namespace);
      NextPort(r, protocol, ports, k, done);
    }
    assert ports[..|ports|] == ports;
  }

  method AddPort(before: seq<SecurityRule>, ghost done: seq<Combo>, r: RuleSpec, protocol: string, port: string,
                 group: string, namespace: string)
    returns (out: seq<SecurityRule>)
    requires AllNamed(before, done, group, namespace)
    ensures AllNamed(out, done + OverTargets(r, protocol, port, ArubaTargets(r.sources)), group, namespace)
  {
    hide ArubaTargets, ArubaDirection, OverTargets;
    out := before;
    var targets := ArubaTargets(r.sources);
    NothingOverNoTargets(r, protocol, port, targets, done);
    for l := 0 to |targets|
      invariant AllNamed(out, done + OverTargets(r, protocol, port, targets[..l]), group, namespace)
    {
      var tags := ArubaTags(r.labels);
      TagsAreUnique(tags, TagsOf(r.labels));
      var rule := SecurityRule(RuleName(group, |out|), namespace, group, tags, protocol, port,
          ArubaDirection(r.direction), targets[l]);
      NamedGrows(out, done + OverTargets(r, protocol, port, targets[..l]), group, namespace, rule,
                 Combo(protocol, port, ArubaDirection(r.direction), targets[l], r.labels));
      NextTarget(r, protocol, port, targets, l, done);
      out := out + [rule];
    }
    assert targets[..|targets|] == targets;
  }

  // ---------- names ----------

  lemma NamesAreDistinct(group: string, i: nat, j: nat)
    ensures RuleName(group, i) == RuleName(group, j) <==> i == j
  {
    ReadBack(i);
    ReadBack(j);
    var n := |group + "-r"|;
    assert RuleName(group, i)[n..] == Decimal(i) && RuleName(group, j)[n..] == Decimal(j);
  }

  lemma {:induction false} CombosAppend(a: seq<RuleSpec>, b: seq<RuleSpec>)
    ensures Combos(a + b) == Combos(a) + Combos(b)
  {
    hide OverProtocols, ArubaProtocols;
    if b == [] {
      assert a + b == a;
    } else {
      var front := b[..|b| - 1];
      assert (a + b)[..|a + b| - 1] == a + front;
      CombosAppend(a, front);
    }
  }

  /**
    The inline rules come first: their own expansion is the leading part, same names included, of the
    expansion of inline and referenced rules together, and no later rule has one of their names.
   */
  lemma InlineRulesLead(inline: seq<RuleSpec>, referenced: seq<RuleSpec>, group: string, namespace: string)
    ensures var n := |Expansion(inline, group, namespace)|; var all := Expansion(inline + referenced, group, namespace);
            && n <= |all|
            && all[..n] == Expansion(inline, group, namespace)
            && (forall i, j :: 0 <= i < n <= j < |all| ==> all[i].name != all[j].name)
            && (forall i, j :: 0 <= i < j < |all| ==> all[i].name != all[j].name)
  {
    CombosAppend(inline, referenced);
    var all := Expansion(inline + referenced, group, namespace);
    forall i, j | 0 <= i < j < |all|
      ensures all[i].name != all[j].name
    {
      NamesAreDistinct(group, i, j);
    }
  }
}
