/**
  What the provider rules admit, against what the rules of the control plane mean. Meaning is given in
  the terms of the rules themselves: a source is the group its reference names by its last two
  segments, or else an address, and a rule may be restricted to an IP version and an ICMP type. What
  is lost on the way to the provider is said exactly.
 */
module RuleMeaning {
  import opened Prelude
  import opened References
  import opened RuleExpansion
  import opened Subnets

  // ---------- the text between slashes ----------

  lemma SplitAtLast(s: string)
    ensures LastSlash(s) < 0 ==> Split(s) == [s] && SlashFree(s)
    ensures var i := LastSlash(s);
            i >= 0 ==>
              && Split(s) == Split(s[..i]) + [s[i + 1..]] && SlashFree(s[i + 1..])
              && s == s[..i] + "/" + s[i + 1..]
  {
  }

  lemma SplitBehind(front: string, last: string)
    requires SlashFree(last)
    ensures Split(front + "/" + last) == Split(front) + [last]
  {
    NoSlashBehind(front + "/", last);
    CutBeforeLast(front, last);
    hide LastSlash;
  }

  lemma {:induction false} SplitAppend(a: string, b: string)
    ensures Split(a + "/" + b) == Split(a) + Split(b)
    decreases |b|
  {
    hide LastSlash, Split;
    SplitAtLast(b);
    if LastSlash(b) < 0 {
      SplitBehind(a, b);
    } else {
      var front, last := b[..LastSlash(b)], b[LastSlash(b) + 1..];
      SplitAppend(a, front);
      SplitBehind(a + "/" + front, last);
      SlashesAssociate(a, front, last);
      assert Split(a) + (Split(front) + [last]) == Split(a) + Split(front) + [last];
    }
  }

  lemma SlashesAssociate(a: string, b: string, c: string)
    ensures a + "/" + (b + "/" + c) == a + "/" + b + "/" + c
  {
  }

  lemma {:induction false} PiecesAreSlashFree(s: string)
    ensures forall p :: p in Split(s) ==> SlashFree(p)
    decreases |s|
  {
    SplitAtLast(s);
    if LastSlash(s) >= 0 {
      PiecesAreSlashFree(s[..LastSlash(s)]);
    }
  }

  lemma {:induction false} JoinUndoesSplit(s: string)
    ensures Join(Split(s)) == s
    decreases |s|
  {
    SplitAtLast(s);
    var i := LastSlash(s);
    if i >= 0 {
      JoinUndoesSplit(s[..i]);
      JoinAppend(Split(s[..i]), [s[i + 1..]]);
    }
  }

  lemma OnePieceIff(s: string)
    ensures |Split(s)| == 1 <==> SlashFree(s)
    ensures SlashFree(s) ==> Split(s) == [s]
  {
    SplitAtLast(s);
    if SlashFree(s) {
      LastSlashOfOne(s);
    }
  }

  /** A text starts with a name and a slash exactly if the name is the first of several pieces. */
  lemma StartsWithIff(s: string, name: string)
    requires SlashFree(name)
    ensures name + "/" <= s <==> |Split(s)| >= 2 && Split(s)[0] == name
    ensures name + "/" <= s ==> Split(s) == [name] + Split(s[|name| + 1..])
  {
    hide Split, Join;
    OnePieceIff(name);
    if name + "/" <= s {
      var rest := s[|name| + 1..];
      assert s == name + "/" + rest;
      SplitAppend(name, rest);
    }
    if |Split(s)| >= 2 && Split(s)[0] == name {
      var rest := Split(s)[1..];
      JoinUndoesSplit(s);
      assert Split(s) == [name] + rest;
      JoinAppend([name], rest);
      JoinAlone([name]);
      assert s == name + "/" + Join(rest);
    }
  }

  lemma JoinAlone(segs: seq<string>)
    requires |segs| == 1
    ensures Join(segs) == segs[0]
  {
  }

  // ---------- what a source is ----------

  const GROUPS := "security-groups"

  /** Where traffic may come from. */
  datatype Origin = FromGroup(name: string) | FromAddress(text: string)

  /** The reference names a group if its last two segments do, and is an address otherwise. */
  function OriginOf(ref: Reference): Origin {
    var segs := Split(ref.resource);
    if |segs| >= 2 && segs[|segs| - 2] == GROUPS then FromGroup(segs[|segs| - 1]) else FromAddress(ref.resource)
  }

  /** The provider's reading of a target. */
  function Reads(t: RuleExpansion.Target): Origin {
    if t.kind == "SecurityGroup" then FromGroup(t.value) else FromAddress(t.value)
  }

  /** The path is no longer than a group's, or mentions the collection of groups neither first nor next to last. */
  predicate Direct(ref: Reference) {
    var segs := Split(ref.resource);
    |segs| <= 2 || (segs[0] != GROUPS && segs[|segs| - 2] != GROUPS)
  }

  /** The target of a reference is what the reference names, exactly if its path is direct. */
  lemma TargetMeansSourceIff(ref: Reference)
    ensures Reads(ArubaTarget(ref)) == OriginOf(ref) <==> Direct(ref)
  {
    hide Split;
    var segs := Split(ref.resource);
    var n := |segs|;
    StartsWithIff(ref.resource, GROUPS);
    OnePieceIff(ref.resource);
    PiecesAreSlashFree(ref.resource);
    assert GROUP_PREFIX == GROUPS + "/";
    if GROUP_PREFIX <= ref.resource {
      var rest := ref.resource[|GROUP_PREFIX|..];
      OnePieceIff(rest);
      assert segs[n - 1] in segs;
      assert segs == [GROUPS] + Split(rest);
    }
  }

  // ---------- what loading does to it ----------

  /** A path with a slash has two last pieces, and perhaps something in front of them. */
  lemma LastTwoPieces(path: string) returns (front: Option<string>, x: string, y: string)
    requires '/' in path
    ensures SlashFree(x) && SlashFree(y)
    ensures path == if front.None? then x + "/" + y else front.value + "/" + x + "/" + y
    ensures Split(path) == (if front.None? then [] else Split(front.value)) + [x, y]
  {
    SplitAtLast(path);
    hide LastSlash, Split;
    var f := path[..LastSlash(path)];
    y := path[LastSlash(path) + 1..];
    SplitAtLast(f);
    if LastSlash(f) < 0 {
      front, x := None, f;
    } else {
      front, x := Some(f[..LastSlash(f)]), f[LastSlash(f) + 1..];
      assert path == front.value + "/" + x + "/" + y;
    }
    assert [x] + [y] == [x, y];
  }

  lemma EmbedRooted(a: string, b: string, scope: string)
    requires SlashFree(a) && SlashFree(b)
    ensures EmbedInResource("" + "/" + a + "/" + b, scope) == scope + "/" + (a + "/" + b)
  {
    LastTwoSlashes("", a, b);
    hide LastSlash;
  }

  lemma SplitOfPair(x: string, y: string)
    requires SlashFree(x) && SlashFree(y)
    ensures Split(x + "/" + y) == [x, y]
  {
    SplitAppend(x, y);
    OnePieceIff(x);
    OnePieceIff(y);
  }

  lemma ScopePieces(tenant: string, workspace: string)
    requires tenant != "" || workspace != ""
    ensures |Split(ScopePath(tenant, workspace))| >= 2
    ensures Split(ScopePath(tenant, workspace))[0] != GROUPS && |ScopePath(tenant, workspace)| > 1
  {
    hide Split;
    var scope := ScopePath(tenant, workspace);
    StartsWithIff(scope, "tenants");
    StartsWithIff(scope, "workspaces");
    if tenant != "" {
      assert "tenants" + "/" <= scope;
    } else {
      assert "workspaces" + "/" <= scope;
    }
  }

  /** Embedding makes the path longer and keeps its last two pieces. */
  lemma EmbeddingKeepsEnd(path: string, scope: string)
    requires '/' in path && |Split(scope)| >= 2 && |scope| > 1
    ensures var d, segs := Split(EmbedInResource(path, scope)), Split(path);
            && |segs| >= 2 && |d| >= 4
            && d[|d| - 2] == segs[|segs| - 2] && d[|d| - 1] == segs[|segs| - 1]
    ensures |EmbedInResource(path, scope)| > |path|
  {
    hide *;
    var front, x, y := LastTwoPieces(path);
    SplitOfPair(x, y);
    SplitAppend(scope, x + "/" + y);
    if front.None? {
      EmbedShort(x, y, scope);
    } else if front.value == "" {
      EmbedRooted(x, y, scope);
    } else {
      EmbedLong(front.value, x, y, scope);
      SplitAppend(front.value + "/" + scope, x + "/" + y);
      SplitAppend(front.value, scope);
    }
  }

  /** A stored reference whose path takes a scope. */
  predicate TakesScope(ref: Reference) {
    '/' in ref.resource && (ref.tenant != "" || ref.workspace != "")
  }

  lemma Unscoped(ref: Reference)
    requires !TakesScope(ref)
    ensures ReferenceFromCR(ref).resource == ref.resource
  {
    if '/' !in ref.resource {
      LastSlashOfOne(ref.resource);
    }
  }

  lemma Scoped(ref: Reference)
    requires TakesScope(ref)
    ensures ReferenceFromCR(ref).resource == EmbedInResource(ref.resource, ScopePath(ref.tenant, ref.workspace))
  {
    hide EmbedInResource, ScopePath;
  }

  /** Loading a stored reference keeps a group, and keeps an address exactly if it takes no scope. */
  lemma LoadingKeepsOriginIff(ref: Reference)
    ensures OriginOf(ReferenceFromCR(ref)) == OriginOf(ref) <==> OriginOf(ref).FromGroup? || !TakesScope(ref)
  {
    hide Split, ReferenceFromCR, EmbedInResource, ScopePath, TakesScope;
    if TakesScope(ref) {
      Scoped(ref);
      WhatIsEmbedded(ref);
    } else {
      Unscoped(ref);
    }
  }

  lemma WhatIsEmbedded(ref: Reference)
    requires TakesScope(ref)
    ensures var path := EmbedInResource(ref.resource, ScopePath(ref.tenant, ref.workspace));
            var d, segs := Split(path), Split(ref.resource);
            && |segs| >= 2 && |d| >= 4
            && d[|d| - 2] == segs[|segs| - 2] && d[|d| - 1] == segs[|segs| - 1] && |path| > |ref.resource|
  {
    hide Split, EmbedInResource, ScopePath;
    ScopePieces(ref.tenant, ref.workspace);
    EmbeddingKeepsEnd(ref.resource, ScopePath(ref.tenant, ref.workspace));
  }

  /**
    From the store to the provider: the target of a stored reference is what the reference names,
    exactly if its path is direct and takes no scope.
   */
  lemma StoredSourceKeptIff(ref: Reference)
    ensures Reads(ArubaTarget(ReferenceFromCR(ref))) == OriginOf(ref) <==> Direct(ref) && !TakesScope(ref)
  {
    var loaded := ReferenceFromCR(ref);
    TargetMeansSourceIff(loaded);
    hide Split, ReferenceFromCR, EmbedInResource, ScopePath, TakesScope;
    if TakesScope(ref) {
      Scoped(ref);
      WhatIsEmbedded(ref);
    } else {
      Unscoped(ref);
    }
  }

  /** A group of a tenant's workspace, as the store holds it, is sent as an address that is none. */
  lemma ScopedGroupIsSentAsAddress(tenant: string, workspace: string, name: string)
    requires tenant != "" && workspace != "" && SlashFree(name)
    ensures var stored := Reference("", "", tenant, workspace, GROUPS + "/" + name);
            && OriginOf(stored) == FromGroup(name)
            && ArubaTarget(ReferenceFromCR(stored)) == RuleExpansion.Target("Ip",
                 "tenants" + "/" + tenant + "/" + "workspaces" + "/" + workspace + "/" + (GROUPS + "/" + name))
  {
    var stored := Reference("", "", tenant, workspace, GROUPS + "/" + name);
    var scope := "tenants" + "/" + tenant + "/" + "workspaces" + "/" + workspace;
    SplitOfPair(GROUPS, name);
    assert TakesScope(stored) by { assert stored.resource[|GROUPS|] == '/'; }
    Scoped(stored);
    assert ScopePath(tenant, workspace) == scope;
    EmbedShort(GROUPS, name, scope);
    hide Split, EmbedInResource, ReferenceFromCR, ScopePath, TakesScope;
    NoGroupPrefix(scope + "/" + (GROUPS + "/" + name));
  }

  lemma NoGroupPrefix(text: string)
    requires text != "" && text[0] == 't'
    ensures !(GROUP_PREFIX <= text)
  {
  }

  // ---------- what traffic is admitted ----------

  /** A flow as the rules see it; which sources an origin covers is for the network to say. */
  datatype Flow = Flow(egress: bool, protocol: string, port: nat, source: string, version: string, icmp: Icmp)

  type Coverage = (Origin, string) -> bool

  /** The range that covers every source. */
  const OPEN := FromAddress("0.0.0.0/0")

  /** The provider's reading of a port text: everything, one port, or an inclusive range. */
  predicate PortTextAdmits(text: string, port: nat) {
    if text == "ALL" then true
    else
      var dash := DashIn(text);
      if dash < 0 then AllDigits(text) && ReadDecimal(text) == port
      else
        && AllDigits(text[..dash]) && AllDigits(text[dash + 1..])
        && ReadDecimal(text[..dash]) <= port <= ReadDecimal(text[dash + 1..])
  }

  function DashIn(s: string): (i: int)
    ensures -1 <= i < |s|
    ensures i >= 0 ==> s[i] == '-' && '-' !in s[..i]
    ensures i < 0 ==> '-' !in s
  {
    if s == "" then -1
    else if s[0] == '-' then 0
    else
      var i := DashIn(s[1..]);
      assert i >= 0 ==> s[..i + 1] == [s[0]] + s[1..][..i];
      if i < 0 then -1 else i + 1
  }

  predicate ComboAdmits(c: Combo, f: Flow, covers: Coverage) {
    && (c.direction == "Egress") == f.egress
    && (c.protocol == "ALL" || c.protocol == f.protocol)
    && PortTextAdmits(c.port, f.port)
    && covers(Reads(c.target), f.source)
  }

  ghost predicate ExpansionAdmits(cs: seq<Combo>, f: Flow, covers: Coverage) {
    exists i :: 0 <= i < |cs| && ComboAdmits(cs[i], f, covers)
  }

  /** The rule is about ICMP, which has no ports. */
  predicate IsIcmp(r: RuleSpec) {
    ToLower(r.protocol) == "icmp" || (r.protocol == "" && r.hasIcmp)
  }

  predicate ProtocolAdmits(r: RuleSpec, protocol: string) {
    if r.protocol == "" then true
    else if ToLower(r.protocol) == "tcp+udp" then protocol == "TCP" || protocol == "UDP"
    else protocol == ToUpper(r.protocol)
  }

  predicate PortAdmits(r: RuleSpec, port: nat) {
    if r.portList != [] then port in r.portList
    else if r.portFrom == 0 && r.portTo == 0 then true
    else if r.portTo == 0 then port == r.portFrom
    else r.portFrom <= port <= r.portTo
  }

  predicate SourceAdmits(origins: seq<Origin>, source: string, covers: Coverage) {
    origins == [] || exists i :: 0 <= i < |origins| && covers(origins[i], source)
  }

  /** What the references of a rule name. */
  function Origins(sources: seq<Reference>): (r: seq<Origin>)
    ensures |r| == |sources|
  {
    seq(|sources|, i requires 0 <= i < |sources| => OriginOf(sources[i]))
  }

  /** What is sent for them. */
  function Sent(sources: seq<Reference>): (r: seq<Origin>)
    ensures |r| == |sources|
  {
    seq(|sources|, i requires 0 <= i < |sources| => Reads(ArubaTarget(sources[i])))
  }

  /** What a normalised rule means, in its own terms, with these origins for its sources. */
  predicate RuleAdmits(r: RuleSpec, origins: seq<Origin>, f: Flow, covers: Coverage) {
    && (ToLower(r.direction) == "egress") == f.egress
    && (if IsIcmp(r) then f.protocol == "ICMP"
        else ProtocolAdmits(r, f.protocol) && PortAdmits(r, f.port))
    && SourceAdmits(origins, f.source, covers)
  }

  /** Printing a port selection and reading it back. */
  lemma PortTextsMeanPorts(r: RuleSpec, port: nat)
    ensures (exists i :: 0 <= i < |ArubaPorts(r, "")| && PortTextAdmits(ArubaPorts(r, "")[i], port)) <==>
              PortAdmits(r, port)
  {
    var texts := ArubaPorts(r, "");
    if |r.portList| > 0 {
      forall i | 0 <= i < |texts|
        ensures PortTextAdmits(texts[i], port) <==> r.portList[i] == port
      {
        SinglePortText(r.portList[i], port);
      }
      if port in r.portList {
        var i :| 0 <= i < |r.portList| && r.portList[i] == port;
        assert PortTextAdmits(texts[i], port);
      }
    } else if r.portFrom > 0 || r.portTo > 0 {
      SinglePortText(r.portFrom, port);
      RangeText(r.portFrom, r.portTo, port);
      assert PortTextAdmits(texts[0], port) <==> PortAdmits(r, port);
    } else {
      assert PortTextAdmits(texts[0], port);
    }
  }

  lemma {:induction false} DashAfterDigits(digits: string, rest: string)
    requires AllDigits(digits)
    ensures DashIn(digits + rest) == if DashIn(rest) < 0 then -1 else |digits| + DashIn(rest)
  {
    if digits == "" {
      assert digits + rest == rest;
    } else {
      assert (digits + rest)[0] == digits[0];
      assert (digits + rest)[1..] == digits[1..] + rest;
      DashAfterDigits(digits[1..], rest);
    }
  }

  lemma SinglePortText(n: nat, port: nat)
    ensures PortTextAdmits(Decimal(n), port) <==> n == port
  {
    ReadBack(n);
    DashAfterDigits(Decimal(n), "");
    assert Decimal(n) + "" == Decimal(n);
  }

  lemma CutAtDash(a: string, b: string)
    ensures var text := a + "-" + b;
            text == a + ("-" + b) && text[|a|] == '-' && text[..|a|] == a && text[|a| + 1..] == b
  {
  }

  lemma DashBetween(a: string, b: string)
    requires AllDigits(a)
    ensures DashIn(a + "-" + b) == |a|
  {
    CutAtDash(a, b);
    DashAfterDigits(a, "-" + b);
  }

  lemma RangeText(a: nat, b: nat, port: nat)
    ensures PortTextAdmits(Decimal(a) + "-" + Decimal(b), port) <==> a <= port <= b
  {
    ReadBack(a);
    ReadBack(b);
    hide Decimal, ReadDecimal, DashIn;
    CutAtDash(Decimal(a), Decimal(b));
    DashBetween(Decimal(a), Decimal(b));
    assert '-' in Decimal(a) + "-" + Decimal(b) && '-' !in "ALL";
  }

  lemma TargetsMeanSent(r: RuleSpec, source: string, covers: Coverage)
    requires covers(OPEN, source)
    ensures (exists i :: 0 <= i < |ArubaTargets(r.sources)| && covers(Reads(ArubaTargets(r.sources)[i]), source))
            <==> SourceAdmits(Sent(r.sources), source, covers)
  {
    var targets := ArubaTargets(r.sources);
    if r.sources == [] {
      assert covers(Reads(targets[0]), source);
    } else {
      assert forall i :: 0 <= i < |targets| ==> Reads(targets[i]) == Sent(r.sources)[i];
    }
  }

  ghost predicate SomePort(texts: seq<string>, port: nat) {
    exists i :: 0 <= i < |texts| && PortTextAdmits(texts[i], port)
  }

  lemma AppendAdmits(a: seq<Combo>, b: seq<Combo>, f: Flow, covers: Coverage)
    ensures ExpansionAdmits(a + b, f, covers) <==> ExpansionAdmits(a, f, covers) || ExpansionAdmits(b, f, covers)
  {
    if ExpansionAdmits(a, f, covers) {
      var i :| 0 <= i < |a| && ComboAdmits(a[i], f, covers);
      assert (a + b)[i] == a[i];
    }
    if ExpansionAdmits(b, f, covers) {
      var i :| 0 <= i < |b| && ComboAdmits(b[i], f, covers);
      assert (a + b)[|a| + i] == b[i];
    }
  }

  ghost predicate DirectionAdmits(r: RuleSpec, f: Flow) {
    (ToLower(r.direction) == "egress") == f.egress
  }

  lemma TargetsAdmit(r: RuleSpec, protocol: string, port: string, f: Flow, covers: Coverage)
    requires covers(OPEN, f.source)
    ensures ExpansionAdmits(OverTargets(r, protocol, port, ArubaTargets(r.sources)), f, covers) <==>
            && DirectionAdmits(r, f) && (protocol == "ALL" || protocol == f.protocol)
            && PortTextAdmits(port, f.port) && SourceAdmits(Sent(r.sources), f.source, covers)
  {
    TargetsMeanSent(r, f.source, covers);
    var targets := ArubaTargets(r.sources);
    var cs := OverTargets(r, protocol, port, targets);
    assert forall i :: 0 <= i < |targets| ==>
        cs[i] == Combo(protocol, port, ArubaDirection(r.direction), targets[i], r.labels);
    if i :| 0 <= i < |targets| && covers(Reads(targets[i]), f.source) {
      assert ComboAdmits(cs[i], f, covers) <==>
        && DirectionAdmits(r, f) && (protocol == "ALL" || protocol == f.protocol) && PortTextAdmits(port, f.port);
    }
  }

  lemma {:induction false} PortsAdmit(r: RuleSpec, protocol: string, ports: seq<string>, f: Flow, covers: Coverage)
    requires covers(OPEN, f.source)
    ensures ExpansionAdmits(OverPorts(r, protocol, ports), f, covers) <==>
            && DirectionAdmits(r, f) && (protocol == "ALL" || protocol == f.protocol)
            && SomePort(ports, f.port) && SourceAdmits(Sent(r.sources), f.source, covers)
  {
    if ports != [] {
      var front, last := ports[..|ports| - 1], ports[|ports| - 1];
      PortsAdmit(r, protocol, front, f, covers);
      TargetsAdmit(r, protocol, last, f, covers);
      AppendAdmits(OverPorts(r, protocol, front), OverTargets(r, protocol, last, ArubaTargets(r.sources)), f, covers);
      SomePortAppend(front, last, f.port);
      assert front + [last] == ports;
    }
  }

  lemma SomePortAppend(front: seq<string>, last: string, port: nat)
    ensures SomePort(front + [last], port) <==> SomePort(front, port) || PortTextAdmits(last, port)
  {
    var all := front + [last];
    if SomePort(front, port) {
      var i :| 0 <= i < |front| && PortTextAdmits(front[i], port);
      assert all[i] == front[i];
    }
    assert all[|front|] == last;
  }

  lemma ProtocolAdmit(r: RuleSpec, protocol: string, f: Flow, covers: Coverage)
    requires covers(OPEN, f.source)
    ensures ExpansionAdmits(OverPorts(r, protocol, ArubaPorts(r, protocol)), f, covers) <==>
            && DirectionAdmits(r, f) && (protocol == "ALL" || protocol == f.protocol)
            && (protocol == "ICMP" || PortAdmits(r, f.port)) && SourceAdmits(Sent(r.sources), f.source, covers)
  {
    PortsAdmit(r, protocol, ArubaPorts(r, protocol), f, covers);
    PortTextsMeanPorts(r, f.port);
    if protocol == "ICMP" {
      assert ArubaPorts(r, protocol)[0] == "ALL";
    } else {
      assert ArubaPorts(r, protocol) == ArubaPorts(r, "");
    }
  }

  lemma OneProtocol(r: RuleSpec, protocol: string, f: Flow, covers: Coverage)
    ensures ExpansionAdmits(OverProtocols(r, [protocol]), f, covers) <==>
            ExpansionAdmits(OverPorts(r, protocol, ArubaPorts(r, protocol)), f, covers)
  {
    hide OverPorts, ArubaPorts;
    var ps := [protocol];
    assert ps[..0] == [];
    assert OverProtocols(r, ps) == OverPorts(r, protocol, ArubaPorts(r, protocol));
  }

  lemma TwoProtocols(r: RuleSpec, p: string, q: string, f: Flow, covers: Coverage)
    ensures ExpansionAdmits(OverProtocols(r, [p, q]), f, covers) <==>
            || ExpansionAdmits(OverPorts(r, p, ArubaPorts(r, p)), f, covers)
            || ExpansionAdmits(OverPorts(r, q, ArubaPorts(r, q)), f, covers)
  {
    hide OverPorts, ArubaPorts;
    var ps := [p, q];
    assert ps[..1] == [p];
    OneProtocol(r, p, f, covers);
    AppendAdmits(OverProtocols(r, [p]), OverPorts(r, q, ArubaPorts(r, q)), f, covers);
  }

  /** The rule as it is expanded: "all" is no protocol of the schema, and is written out as every one. */
  function Widened(r: RuleSpec): RuleSpec {
    if ToLower(r.protocol) == "all" then r.(protocol := "", hasIcmp := false) else r
  }

  lemma WidenedKeeps(r: RuleSpec, f: Flow)
    ensures DirectionAdmits(Widened(r), f) <==> DirectionAdmits(r, f)
    ensures PortAdmits(Widened(r), f.port) <==> PortAdmits(r, f.port)
  {
  }

  lemma UpperOfLower(s: string)
    ensures ToLower(s) == "tcp" ==> ToUpper(s) == "TCP"
    ensures ToLower(s) == "udp" ==> ToUpper(s) == "UDP"
    ensures ToLower(s) == "icmp" <==> ToUpper(s) == "ICMP"
    ensures ToLower(s) == "all" <==> ToUpper(s) == "ALL"
    ensures ToLower(s) == "" <==> s == ""
  {
    var lower, upper := ToLower(s), ToUpper(s);
    assert forall i :: 0 <= i < |s| ==> UpperChar(lower[i]) == upper[i] && LowerChar(upper[i]) == lower[i];
    assert lower == ToLower(upper) && upper == ToUpper(lower);
  }

  lemma OneRuleAdmits(r: RuleSpec, f: Flow, covers: Coverage)
    requires covers(OPEN, f.source)
    ensures ExpansionAdmits(OverProtocols(r, ArubaProtocols(r.protocol, r.hasIcmp)), f, covers) <==>
            RuleAdmits(Widened(r), Sent(r.sources), f, covers)
  {
    hide OverProtocols, OverPorts, ArubaPorts, PortAdmits, SourceAdmits, ToLower, ToUpper, Sent;
    UpperOfLower(r.protocol);
    UpperOfLower("");
    WidenedKeeps(r, f);
    var protocols := ArubaProtocols(r.protocol, r.hasIcmp);
    if ToLower(r.protocol) == "tcp+udp" {
      TwoProtocols(r, "TCP", "UDP", f, covers);
      ProtocolAdmit(r, "TCP", f, covers);
      ProtocolAdmit(r, "UDP", f, covers);
    } else {
      assert protocols == [protocols[0]];
      OneProtocol(r, protocols[0], f, covers);
      ProtocolAdmit(r, protocols[0], f, covers);
    }
  }

  /**
    What any normalised rules are expanded to: a flow is admitted by some provider rule if and only if
    some rule admits it, "all" read as every protocol and every source as it is sent. The coverage is
    the network's; the only thing asked of it is that the open range covers every source.
   */
  lemma {:induction false} ExpansionMeansSent(rules: seq<RuleSpec>, f: Flow, covers: Coverage)
    requires covers(OPEN, f.source)
    ensures ExpansionAdmits(Combos(rules), f, covers) <==>
            exists i :: 0 <= i < |rules| && RuleAdmits(Widened(rules[i]), Sent(rules[i].sources), f, covers)
  {
    hide OverProtocols, ArubaProtocols, RuleAdmits, ToLower, Widened, Sent;
    if rules != [] {
      var front, last := rules[..|rules| - 1], rules[|rules| - 1];
      ExpansionMeansSent(front, f, covers);
      OneRuleAdmits(last, f, covers);
      AppendAdmits(Combos(front), OverProtocols(last, ArubaProtocols(last.protocol, last.hasIcmp)), f, covers);
      assert forall i :: 0 <= i < |front| ==> rules[i] == front[i];
    }
  }

  // ---------- from the stored rules to the provider ----------

  /** A rule of the store as the handlers get it: its references are loaded. */
  function Loaded(r: SecaRule): SecaRule {
    r.(version := if r.version in {"IPv4", "IPv6"} then r.version else "",
       sources := seq(|r.sources|, i requires 0 <= i < |r.sources| => ReferenceFromCR(r.sources[i])))
  }

  predicate AboutIcmp(r: SecaRule) {
    ToLower(r.protocol) == "icmp" || (r.protocol == "" && r.icmp.Some?)
  }

  /** A list of ports, or else a range; a range without an end is one port, and one of zeros is every port. */
  predicate SelectsPort(r: SecaRule, port: nat) {
    r.ports.Some? ==>
      var ports := r.ports.value;
      if ports.list != [] then port in ports.list
      else (ports.from == 0 && ports.to == 0) || (ports.from == port && ports.to == 0) || ports.from <= port <= ports.to
  }

  predicate SelectsProtocol(r: SecaRule, protocol: string) {
    || r.protocol == ""
    || (ToLower(r.protocol) == "tcp+udp" && protocol in {"TCP", "UDP"})
    || (ToLower(r.protocol) != "tcp+udp" && protocol == ToUpper(r.protocol))
  }

  /** What a stored rule means: its version and its ICMP type, where it gives them, are part of it. */
  predicate StoredAdmits(r: SecaRule, f: Flow, covers: Coverage) {
    && (ToLower(r.direction) == "egress" <==> f.egress)
    && (if AboutIcmp(r) then f.protocol == "ICMP" && (r.icmp.Some? ==> f.icmp == r.icmp.value)
        else SelectsProtocol(r, f.protocol) && SelectsPort(r, f.port))
    && SourceAdmits(Origins(r.sources), f.source, covers)
    && (r.version in {"IPv4", "IPv6"} ==> f.version == r.version)
  }

  /** Normalising keeps direction, protocol, ports and sources, and drops version and ICMP type. */
  lemma StoredIsNormalized(r: SecaRule, f: Flow, covers: Coverage)
    ensures StoredAdmits(r, f, covers) <==>
            && RuleAdmits(Normalized(r, map[]), Origins(r.sources), f, covers)
            && (r.version in {"IPv4", "IPv6"} ==> f.version == r.version)
            && (AboutIcmp(r) && r.icmp.Some? ==> f.icmp == r.icmp.value)
  {
    hide ToLower, ToUpper, SourceAdmits, Origins;
    SelectionIsNormalized(r, f.port);
    hide PortAdmits, SelectsPort;
  }

  lemma SelectionIsNormalized(r: SecaRule, port: nat)
    ensures SelectsPort(r, port) <==> PortAdmits(Normalized(r, map[]), port)
    ensures AboutIcmp(r) <==> IsIcmp(Normalized(r, map[]))
  {
    hide ToLower;
  }

  /** The rules of the provider for one rule of the store. */
  function Made(r: SecaRule, labels: map<string, string>): seq<Combo> {
    Combos([Normalized(Loaded(r), labels)])
  }

  /** The rule asks for nothing that normalising or expanding drops. */
  predicate Expressible(r: SecaRule) {
    && ToLower(r.protocol) != "all"
    && r.version !in {"IPv4", "IPv6"}
    && (AboutIcmp(r) ==> r.icmp.None?)
  }

  predicate SourceKept(ref: Reference) {
    Direct(ref) && !TakesScope(ref)
  }

  lemma LoadedSources(r: SecaRule)
    ensures |Sent(Loaded(r).sources)| == |Origins(r.sources)| == |r.sources|
    ensures forall i :: 0 <= i < |r.sources| ==>
              Sent(Loaded(r).sources)[i] == Reads(ArubaTarget(ReferenceFromCR(r.sources[i])))
              && Origins(r.sources)[i] == OriginOf(r.sources[i])
  {
    hide OriginOf, ReferenceFromCR, ArubaTarget, Reads;
  }

  lemma KeptSources(r: SecaRule)
    requires forall s :: s in r.sources ==> SourceKept(s)
    ensures Sent(Loaded(r).sources) == Origins(r.sources)
  {
    LoadedSources(r);
    hide *;
    forall i | 0 <= i < |r.sources|
      ensures Sent(Loaded(r).sources)[i] == Origins(r.sources)[i]
    {
      assert r.sources[i] in r.sources;
      SourceIsSent(r.sources[i]);
    }
  }

  lemma SourceIsSent(ref: Reference)
    requires SourceKept(ref)
    ensures Reads(ArubaTarget(ReferenceFromCR(ref))) == OriginOf(ref)
  {
    StoredSourceKeptIff(ref);
  }

  /** Normalising reads no more of a rule than these. */
  lemma NormalizedAdmits(r: SecaRule, labels: map<string, string>, origins: seq<Origin>, f: Flow, covers: Coverage)
    ensures RuleAdmits(Widened(Normalized(Loaded(r), labels)), origins, f, covers) <==>
            RuleAdmits(Widened(Normalized(r, map[])), origins, f, covers)
  {
  }

  /**
    Stored rules that ask for no more than the provider has mean at the provider what they meant: a
    flow is admitted by some provider rule if and only if some stored rule admits it.
   */
  lemma ExpansionPreservesMeaning(rules: seq<SecaRule>, labels: map<string, string>, f: Flow, covers: Coverage)
    requires covers(OPEN, f.source)
    requires forall r :: r in rules ==> Expressible(r) && forall s :: s in r.sources ==> SourceKept(s)
    ensures ExpansionAdmits(Combos(InlineSpecs(LoadedRules(rules), labels)), f, covers) <==>
            exists i :: 0 <= i < |rules| && StoredAdmits(rules[i], f, covers)
  {
    var specs := InlineSpecs(LoadedRules(rules), labels);
    ExpansionMeansSent(specs, f, covers);
    hide Combos, RuleAdmits, ToLower, ExpansionAdmits, Sent, Origins, Loaded, SourceKept, Widened, Expressible,
        StoredAdmits;
    forall i | 0 <= i < |rules|
      ensures RuleAdmits(Widened(specs[i]), Sent(specs[i].sources), f, covers) <==> StoredAdmits(rules[i], f, covers)
    {
      assert rules[i] in rules;
      RuleMeansTheSame(rules[i], labels, f, covers);
    }
  }

  function LoadedRules(rules: seq<SecaRule>): (r: seq<SecaRule>)
    ensures |r| == |rules|
  {
    seq(|rules|, i requires 0 <= i < |rules| => Loaded(rules[i]))
  }

  lemma RuleMeansTheSame(r: SecaRule, labels: map<string, string>, f: Flow, covers: Coverage)
    requires Expressible(r) && forall s :: s in r.sources ==> SourceKept(s)
    ensures var spec := Normalized(Loaded(r), labels);
            RuleAdmits(Widened(spec), Sent(spec.sources), f, covers) <==> StoredAdmits(r, f, covers)
  {
    KeptSources(r);
    NormalizedAdmits(r, labels, Origins(r.sources), f, covers);
    StoredIsNormalized(r, f, covers);
    hide RuleAdmits, Sent, Origins, SourceKept, StoredAdmits;
  }

  // ---------- exactly when ----------

  /** The origins named and those sent are the same, the open range standing for all of them. */
  ghost predicate SameOrigins(a: seq<Origin>, b: seq<Origin>) {
    var x, y := Standing(a), Standing(b);
    (OPEN in x && OPEN in y) || (forall o :: o in x <==> o in y)
  }

  /** No source at all is the open range. */
  function Standing(origins: seq<Origin>): seq<Origin> {
    if origins == [] then [OPEN] else origins
  }

  lemma StandingAdmits(origins: seq<Origin>, source: string, covers: Coverage)
    requires covers(OPEN, source)
    ensures SourceAdmits(origins, source, covers) <==> exists o :: o in Standing(origins) && covers(o, source)
  {
    if SourceAdmits(origins, source, covers) && origins != [] {
      var i :| 0 <= i < |origins| && covers(origins[i], source);
      assert origins[i] in Standing(origins);
    }
    if origins == [] {
      assert OPEN in Standing(origins);
    }
  }

  /** A coverage that tells the two apart. */
  lemma TellsApart(a: seq<Origin>, b: seq<Origin>) returns (covers: Coverage)
    requires !SameOrigins(a, b)
    ensures forall s :: covers(OPEN, s)
    ensures forall s :: SourceAdmits(a, s, covers) <==> !SourceAdmits(b, s, covers)
  {
    hide SourceAdmits;
    var x, y := Standing(a), Standing(b);
    if (OPEN in x) != (OPEN in y) {
      covers := (o, s) => o == OPEN;
    } else {
      var p :| !(p in x <==> p in y);
      covers := (o, s) => o == p || o == OPEN;
    }
    forall s
      ensures SourceAdmits(a, s, covers) <==> !SourceAdmits(b, s, covers)
    {
      StandingAdmits(a, s, covers);
      StandingAdmits(b, s, covers);
    }
  }

  lemma SameOriginsAdmitTheSame(a: seq<Origin>, b: seq<Origin>, source: string, covers: Coverage)
    requires SameOrigins(a, b) && covers(OPEN, source)
    ensures SourceAdmits(a, source, covers) <==> SourceAdmits(b, source, covers)
  {
    hide SourceAdmits;
    StandingAdmits(a, source, covers);
    StandingAdmits(b, source, covers);
  }

  lemma MadeAdmits(r: SecaRule, labels: map<string, string>, f: Flow, covers: Coverage)
    requires covers(OPEN, f.source)
    ensures ExpansionAdmits(Made(r, labels), f, covers) <==>
            RuleAdmits(Widened(Normalized(r, map[])), Sent(Loaded(r).sources), f, covers)
  {
    var spec := Normalized(Loaded(r), labels);
    ExpansionMeansSent([spec], f, covers);
    NormalizedAdmits(r, labels, Sent(Loaded(r).sources), f, covers);
    hide RuleAdmits, ExpansionAdmits, Combos, Sent;
    assert [spec][0] == spec;
  }

  ghost predicate MeansTheSame(r: SecaRule, labels: map<string, string>, covers: Coverage) {
    forall f: Flow :: covers(OPEN, f.source) ==>
        (ExpansionAdmits(Made(r, labels), f, covers) <==> StoredAdmits(r, f, covers))
  }

  /** What the rule would admit at this port, if nothing else were asked. */
  function Sample(r: SecaRule, port: nat, version: string, icmp: Icmp): Flow {
    var protocol := ArubaProtocols(r.protocol, r.icmp.Some?)[0];
    Flow(ToLower(r.direction) == "egress", if protocol == "ALL" then "TCP" else protocol, port, "", version, icmp)
  }

  lemma SampleIsAdmitted(r: SecaRule, port: nat, version: string, icmp: Icmp, origins: seq<Origin>, covers: Coverage)
    requires SelectsPort(r, port) && SourceAdmits(origins, "", covers)
    ensures RuleAdmits(Widened(Normalized(r, map[])), origins, Sample(r, port, version, icmp), covers)
  {
    SelectionIsNormalized(r, port);
    hide SourceAdmits, PortAdmits, SelectsPort, ToLower, ToUpper;
    UpperOfLower(r.protocol);
    UpperOfLower("");
    WidenedKeeps(Normalized(r, map[]), Sample(r, port, version, icmp));
  }

  /** A rule that is not expressible admits more at the provider. */
  lemma Inexpressible(r: SecaRule, labels: map<string, string>, port: nat, covers: Coverage)
    requires !Expressible(r) && SelectsPort(r, port) && forall o, s :: covers(o, s)
    ensures !MeansTheSame(r, labels, covers)
  {
    var version := if r.version == "IPv4" then "IPv6" else "IPv4";
    var icmp := if r.icmp.Some? then Icmp(r.icmp.value.kind + 1, 0) else Icmp(0, 0);
    var f := Sample(r, port, version, icmp);
    var sent := Sent(Loaded(r).sources);
    assert SourceAdmits(sent, "", covers) by { assert sent == [] || covers(sent[0], ""); }
    SampleIs(r, port, version, icmp);
    hide *;
    SampleIsAdmitted(r, port, version, icmp, sent, covers);
    MadeAdmits(r, labels, f, covers);
    NotStored(r, f);
    Differs(r, labels, f, covers);
  }

  lemma SampleIs(r: SecaRule, port: nat, version: string, icmp: Icmp)
    ensures var f := Sample(r, port, version, icmp);
            && f.version == version && f.icmp == icmp && f.source == ""
            && (ToLower(r.protocol) == "all" ==> f.protocol == "TCP")
  {
    hide ToLower, ToUpper;
    UpperOfLower(r.protocol);
  }

  lemma Differs(r: SecaRule, labels: map<string, string>, f: Flow, covers: Coverage)
    requires covers(OPEN, f.source) && ExpansionAdmits(Made(r, labels), f, covers) != StoredAdmits(r, f, covers)
    ensures !MeansTheSame(r, labels, covers)
  {
    hide ExpansionAdmits, Made, StoredAdmits;
  }

  lemma NotStored(r: SecaRule, f: Flow)
    requires !Expressible(r) && f.version != r.version && (r.icmp.Some? ==> f.icmp != r.icmp.value)
    requires ToLower(r.protocol) == "all" ==> f.protocol == "TCP"
    ensures forall covers :: !StoredAdmits(r, f, covers)
  {
    hide ToLower, ToUpper, SourceAdmits, SelectsPort;
    UpperOfLower(r.protocol);
  }

  /**
    For a stored rule that admits some port: its meaning is kept, whatever the network, if and only if
    it asks for nothing that is dropped and the origins sent for its sources are those they name.
   */
  lemma MeaningKeptIff(r: SecaRule, labels: map<string, string>, port: nat)
    requires SelectsPort(r, port)
    ensures (forall covers: Coverage :: MeansTheSame(r, labels, covers)) <==>
            Expressible(r) && SameOrigins(Sent(Loaded(r).sources), Origins(r.sources))
  {
    hide MeansTheSame, SameOrigins, Sent, Origins, Loaded, Expressible, SelectsPort;
    if !Expressible(r) {
      var covers: Coverage := (o, s) => true;
      Inexpressible(r, labels, port, covers);
    } else if SameOrigins(Sent(Loaded(r).sources), Origins(r.sources)) {
      forall covers: Coverage
        ensures MeansTheSame(r, labels, covers)
      {
        ExpressibleMeansTheSame(r, labels, covers);
      }
    } else {
      OriginsLost(r, labels, port);
    }
  }

  lemma ExpressibleMeansTheSame(r: SecaRule, labels: map<string, string>, covers: Coverage)
    requires Expressible(r) && SameOrigins(Sent(Loaded(r).sources), Origins(r.sources))
    ensures MeansTheSame(r, labels, covers)
  {
    hide SameOrigins, Sent, Origins, Loaded, SourceAdmits;
    forall f: Flow | covers(OPEN, f.source)
      ensures ExpansionAdmits(Made(r, labels), f, covers) <==> StoredAdmits(r, f, covers)
    {
      MadeAdmits(r, labels, f, covers);
      SameOriginsAdmitTheSame(Sent(Loaded(r).sources), Origins(r.sources), f.source, covers);
      StoredIsNormalized(r, f, covers);
      hide Made, ExpansionAdmits, PortAdmits, ProtocolAdmits, ToLower, StoredAdmits;
    }
  }

  lemma OriginsLost(r: SecaRule, labels: map<string, string>, port: nat)
    requires Expressible(r) && !SameOrigins(Sent(Loaded(r).sources), Origins(r.sources))
    requires SelectsPort(r, port)
    ensures exists covers: Coverage :: !MeansTheSame(r, labels, covers)
  {
    hide *;
    var sent, named := Sent(Loaded(r).sources), Origins(r.sources);
    var covers := TellsApart(sent, named);
    var icmp := if r.icmp.Some? then r.icmp.value else Icmp(0, 0);
    var f := Sample(r, port, r.version, icmp);
    MadeAdmits(r, labels, f, covers);
    if SourceAdmits(sent, "", covers) {
      SampleIsAdmitted(r, port, r.version, icmp, sent, covers);
    } else {
      SampleIsAdmitted(r, port, r.version, icmp, named, covers);
    }
    StoredSample(r, f, covers);
    SampleIs(r, port, r.version, icmp);
    AdmittedSource(Widened(Normalized(r, map[])), sent, f, covers);
    AdmittedSource(Widened(Normalized(r, map[])), named, f, covers);
    Differs(r, labels, f, covers);
  }

  lemma AdmittedSource(r: RuleSpec, origins: seq<Origin>, f: Flow, covers: Coverage)
    ensures RuleAdmits(r, origins, f, covers) ==> SourceAdmits(origins, f.source, covers)
  {
  }

  lemma StoredSample(r: SecaRule, f: Flow, covers: Coverage)
    requires Expressible(r)
    ensures StoredAdmits(r, f, covers) <==> RuleAdmits(Widened(Normalized(r, map[])), Origins(r.sources), f, covers)
  {
    StoredIsNormalized(r, f, covers);
    hide RuleAdmits, Origins, ToLower, StoredAdmits;
  }

  /** A protocol written "all", which the schema does not have, admits every protocol. */
  lemma AllIsWidened(r: SecaRule, labels: map<string, string>, f: Flow, covers: Coverage)
    requires covers(OPEN, f.source) && ToLower(r.protocol) == "all"
    ensures ExpansionAdmits(Made(r, labels), f, covers) <==>
            && (ToLower(r.direction) == "egress" <==> f.egress) && SelectsPort(r, f.port)
            && SourceAdmits(Sent(Loaded(r).sources), f.source, covers)
    ensures StoredAdmits(r, f, covers) ==> f.protocol == "ALL"
  {
    MadeAdmits(r, labels, f, covers);
    hide ExpansionAdmits, Made, SourceAdmits, ToLower, ToUpper, Sent, Origins, Loaded;
    UpperOfLower(r.protocol);
    UpperOfLower("");
    WidenedKeeps(Normalized(r, map[]), f);
    SelectionIsNormalized(r, f.port);
    hide PortAdmits, SelectsPort;
  }
}
