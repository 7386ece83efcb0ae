/**
  The security groups and rules materialised at the provider for one group of the control plane: how
  they are reaped when that group is deleted, and retagged when its labels change. Which objects
  belong to a group is read off their labels and namespaces.
 */
module SecurityGroups {
  import opened Prelude
  import opened Tags
  import opened RuleExpansion

  datatype Group = Group(tenant: string, seca: string, tags: seq<string>)

  datatype Cloud = Cloud(groups: map<Place, Group>, rules: map<Place, SecurityRule>)

  /** A group of the control plane, and the namespace of its workspace. */
  datatype Owner = Owner(namespace: string, tenant: string, name: string)

  predicate Backs(c: Cloud, owner: Owner, g: Place) {
    && g in c.groups && g.namespace == owner.namespace
    && c.groups[g].tenant == owner.tenant && c.groups[g].seca == owner.name
  }

  /** A rule carries the name of its materialised group and lives in that group's namespace. */
  predicate Under(c: Cloud, g: Place, r: Place) {
    r in c.rules && r.namespace == g.namespace && c.rules[r].groupLabel == g.name
  }

  function GroupsOf(c: Cloud, owner: Owner): set<Place> {
    set g | g in c.groups && Backs(c, owner, g)
  }

  function RulesUnder(c: Cloud, g: Place): set<Place> {
    set r | r in c.rules && Under(c, g, r)
  }

  // ---------- reaping ----------

  /** The group a rule belongs to, by its label. */
  function GroupOf(c: Cloud, r: Place): Place
    requires r in c.rules
  {
    Place(r.namespace, c.rules[r].groupLabel)
  }

  /** Everything that backs the owner is gone, and nothing else. */
  function Reaped(c: Cloud, owner: Owner): Cloud {
    Cloud(map g | g in c.groups && !Backs(c, owner, g) :: c.groups[g],
          map r | r in c.rules && !Backs(c, owner, GroupOf(c, r)) :: c.rules[r])
  }

  function WithoutRule(c: Cloud, r: Place): Cloud {
    c.(rules := c.rules - {r})
  }

  function WithoutGroup(c: Cloud, g: Place): Cloud {
    c.(groups := c.groups - {g})
  }

  /** Objects that disappeared by somebody else's hand. */
  datatype Losses = Losses(groups: set<Place>, rules: set<Place>)

  function Minus(c: Cloud, l: Losses): Cloud {
    Cloud(c.groups - l.groups, c.rules - l.rules)
  }

  /** Others may remove any rule, and a group once it has no rules left. */
  function Allowed(c: Cloud, l: Losses): Losses {
    Losses((set g | g in l.groups && g in c.groups && RulesUnder(c, g) <= l.rules), l.rules)
  }

  /** How a run goes: what others remove before each of its calls, and after how many calls it fails. */
  datatype Run = Run(others: seq<Losses>, budget: Option<nat>)

  /** A run stops when its calls are used up and not before, and makes no more of them. */
  predicate Stops(run: Run, calls: int, after: int, done: bool) {
    && calls <= after
    && (calls < after ==> run.budget.None? || after <= run.budget.value)
    && (!done ==> run.budget.Some? && run.budget.value <= after)
  }

  lemma NoCallsYet(run: Run, calls: nat)
    ensures Stops(run, calls, calls, true)
  {
  }

  lemma OneCall(run: Run, calls: nat, done: bool)
    requires done <==> run.budget.None? || calls < run.budget.value
    ensures Stops(run, calls, if done then calls + 1 else calls, done)
  {
  }

  lemma CallsAdd(run: Run, before: int, calls: int, after: int, done: bool)
    requires Stops(run, before, calls, true) && Stops(run, calls, after, done)
    ensures Stops(run, before, after, done)
  {
  }

  /** A run that nobody disturbs. */
  function Undisturbed(budget: Option<nat>): Run {
    Run([], budget)
  }

  /** None of the rules of a reaped group is left behind. */
  ghost predicate NoOrphans(start: Cloud, c: Cloud, owner: Owner) {
    forall g, r :: Backs(start, owner, g) && g !in c.groups && Under(start, g, r) ==> r !in c.rules
  }

  ghost predicate Shrunk(start: Cloud, c: Cloud) {
    && (forall g :: g in c.groups ==> g in start.groups && c.groups[g] == start.groups[g])
    && (forall r :: r in c.rules ==> r in start.rules && c.rules[r] == start.rules[r])
  }

  ghost predicate Intact(start: Cloud, c: Cloud, owner: Owner) {
    Shrunk(start, c) && NoOrphans(start, c, owner)
  }

  /** Deleting a rule of the owner leaves the final outcome as it was. */
  lemma RuleGoesFirst(c: Cloud, owner: Owner, r: Place)
    requires r in c.rules && Backs(c, owner, GroupOf(c, r))
    ensures Reaped(WithoutRule(c, r), owner) == Reaped(c, owner)
  {
    var d := WithoutRule(c, r);
    assert forall s :: s in d.rules ==> GroupOf(d, s) == GroupOf(c, s);
    assert forall g :: Backs(d, owner, g) == Backs(c, owner, g);
  }

  /**
    Deleting a group leaves the final outcome as it was exactly if its rules are gone already: a group
    deleted too early takes with it the only way to find them.
   */
  lemma GroupGoesLast(c: Cloud, owner: Owner, g: Place)
    requires Backs(c, owner, g)
    ensures Reaped(WithoutGroup(c, g), owner) == Reaped(c, owner) <==> RulesUnder(c, g) == {}
  {
    var d := WithoutGroup(c, g);
    assert forall k :: Backs(d, owner, k) <==> Backs(c, owner, k) && k != g;
    assert forall s :: s in c.rules ==> GroupOf(d, s) == GroupOf(c, s);
    assert Reaped(d, owner).groups == Reaped(c, owner).groups;
    if r :| r in RulesUnder(c, g) {
      assert GroupOf(c, r) == g;
      assert r in Reaped(d, owner).rules && r !in Reaped(c, owner).rules;
    } else {
      assert forall s :: s in c.rules ==> GroupOf(c, s) != g by {
        assert forall s :: s in c.rules && GroupOf(c, s) == g ==> s in RulesUnder(c, g);
      }
      assert Reaped(d, owner).rules == Reaped(c, owner).rules;
    }
  }

  lemma LossesCommute(c: Cloud, owner: Owner, l: Losses)
    requires l == Allowed(c, l)
    ensures Reaped(Minus(c, l), owner) == Minus(Reaped(c, owner), l)
  {
    var d := Minus(c, l);
    assert forall k :: Backs(d, owner, k) <==> Backs(c, owner, k) && k !in l.groups;
    assert forall s :: s in d.rules ==> GroupOf(d, s) == GroupOf(c, s);
    forall s | s in d.rules
      ensures Backs(d, owner, GroupOf(d, s)) <==> Backs(c, owner, GroupOf(c, s))
    {
      if Backs(c, owner, GroupOf(c, s)) {
        assert s in RulesUnder(c, GroupOf(c, s));
      }
    }
  }

  lemma NothingLeftToReap(c: Cloud, owner: Owner)
    requires GroupsOf(c, owner) == {}
    ensures Reaped(c, owner) == c
  {
    assert forall g :: Backs(c, owner, g) ==> g in GroupsOf(c, owner);
  }

  function Both(a: Losses, b: Losses): Losses {
    Losses(a.groups + b.groups, a.rules + b.rules)
  }

  /** An interrupted reaping: running it again from here would end where the uninterrupted one does. */
  ghost predicate OnTheWay(start: Cloud, c: Cloud, owner: Owner, gone: Losses) {
    && Intact(start, c, owner)
    && Reaped(c, owner) == Minus(Reaped(start, owner), gone)
  }

  lemma AtTheStart(c: Cloud, owner: Owner)
    ensures OnTheWay(c, c, owner, Losses({}, {}))
  {
  }

  lemma LossesOrphanNothing(start: Cloud, c: Cloud, owner: Owner, l: Losses)
    requires Intact(start, c, owner)
    ensures Intact(start, Minus(c, Allowed(c, l)), owner)
  {
    hide Backs;
    var d := Minus(c, Allowed(c, l));
    forall g, r | Backs(start, owner, g) && g !in d.groups && Under(start, g, r)
      ensures r !in d.rules
    {
      if g in c.groups && r in c.rules {
        assert r in RulesUnder(c, g);
      }
    }
  }

  lemma LossesAdd(c: Cloud, a: Losses, b: Losses)
    ensures Minus(Minus(c, a), b) == Minus(c, Both(a, b))
  {
  }

  lemma AfterLosses(start: Cloud, c: Cloud, owner: Owner, gone: Losses, l: Losses)
    requires OnTheWay(start, c, owner, gone)
    ensures OnTheWay(start, Minus(c, Allowed(c, l)), owner, Both(gone, Allowed(c, l)))
  {
    var lost := Allowed(c, l);
    assert lost == Allowed(c, lost);
    hide Reaped, Intact, Allowed, Minus, Both;
    LossesCommute(c, owner, lost);
    LossesOrphanNothing(start, c, owner, l);
    LossesAdd(Reaped(start, owner), gone, lost);
  }

  lemma AfterRule(start: Cloud, c: Cloud, owner: Owner, gone: Losses, g: Place, r: Place)
    requires OnTheWay(start, c, owner, gone) && Backs(start, owner, g) && Under(start, g, r)
    ensures OnTheWay(start, WithoutRule(c, r), owner, gone)
  {
    if r in c.rules {
      assert GroupOf(c, r) == g;
      RuleGoesFirst(c, owner, r);
    } else {
      assert WithoutRule(c, r) == c;
    }
  }

  lemma AfterGroup(start: Cloud, c: Cloud, owner: Owner, gone: Losses, g: Place)
    requires OnTheWay(start, c, owner, gone) && Backs(start, owner, g) && RulesUnder(c, g) == {}
    ensures OnTheWay(start, WithoutGroup(c, g), owner, gone)
  {
    if g in c.groups {
      GroupGoesLast(c, owner, g);
    } else {
      assert WithoutGroup(c, g) == c;
    }
    forall r | Under(start, g, r)
      ensures r !in c.rules
    {
      assert r in c.rules ==> r in RulesUnder(c, g);
    }
  }

  lemma ShrunkRules(start: Cloud, c: Cloud, g: Place)
    requires Shrunk(start, c)
    ensures RulesUnder(c, g) <= RulesUnder(start, g)
    ensures forall r :: r in RulesUnder(c, g) ==> Under(start, g, r)
  {
  }

  lemma ShrunkGroups(start: Cloud, c: Cloud, owner: Owner)
    requires c == start || Shrunk(start, c)
    ensures GroupsOf(c, owner) <= GroupsOf(start, owner)
    ensures forall g :: g in GroupsOf(start, owner) ==> Backs(start, owner, g)
  {
  }

  /** All states from some point on are sound. */
  ghost predicate Trail(start: Cloud, past: seq<Cloud>, from: nat, owner: Owner) {
    from <= |past| && forall k :: from <= k < |past| ==> Intact(start, past[k], owner)
  }

  lemma IntactAcross(start: Cloud, middle: Cloud, c: Cloud, owner: Owner)
    requires Intact(start, middle, owner) && Intact(middle, c, owner)
    ensures Intact(start, c, owner)
  {
  }

  /** One undisturbed run after another. */
  lemma Continued(start: Cloud, middle: Cloud, c: Cloud, owner: Owner, seen: seq<Cloud>, past: seq<Cloud>, from: nat)
    requires OnTheWay(start, middle, owner, Losses({}, {})) && OnTheWay(middle, c, owner, Losses({}, {}))
    requires Trail(start, seen, from, owner) && seen <= past && Trail(middle, past, |seen|, owner)
    ensures OnTheWay(start, c, owner, Losses({}, {})) && Trail(start, past, from, owner)
  {
    hide Reaped, Intact;
    NothingLost(Reaped(start, owner));
    NothingLost(Reaped(middle, owner));
    IntactAcross(start, middle, c, owner);
    forall k | from <= k < |past|
      ensures Intact(start, past[k], owner)
    {
      if k < |seen| {
        assert past[k] == seen[k];
      } else {
        IntactAcross(start, middle, past[k], owner);
      }
    }
  }

  /** What belongs to no materialised group of this owner is not touched. */
  lemma ReapedExactly(c: Cloud, owner: Owner)
    ensures GroupsOf(Reaped(c, owner), owner) == {}
    ensures Reaped(c, owner).groups.Keys == c.groups.Keys - GroupsOf(c, owner)
    ensures forall r :: r in c.rules ==>
              (r in Reaped(c, owner).rules <==> forall g :: g in GroupsOf(c, owner) ==> r !in RulesUnder(c, g))
    ensures forall other: Owner :: other != owner ==> GroupsOf(Reaped(c, owner), other) == GroupsOf(c, other)
  {
    forall r | r in c.rules && r !in Reaped(c, owner).rules
      ensures exists g :: g in GroupsOf(c, owner) && r in RulesUnder(c, g)
    {
      assert GroupOf(c, r) in GroupsOf(c, owner) && r in RulesUnder(c, GroupOf(c, r));
    }
    forall other: Owner | other != owner
      ensures GroupsOf(Reaped(c, owner), other) == GroupsOf(c, other)
    {
      assert forall g :: Backs(c, other, g) ==> !Backs(c, owner, g);
    }
  }

  // ---------- retagging ----------

  /** How many provider rules the inline rules make. */
  function InlineCount(rules: seq<SecaRule>, labels: map<string, string>): nat {
    |Combos(InlineSpecs(rules, labels))|
  }

  /** The names the inline rules give to the rules of a materialised group. */
  function InlineNames(g: Place, rules: seq<SecaRule>, labels: map<string, string>): set<string> {
    set i | 0 <= i < InlineCount(rules, labels) :: RuleName(g.name, i)
  }

  /** The rules whose tags the owner decides: those with the names of its inline rules. */
  predicate Inherits(c: Cloud, owner: Owner, rules: seq<SecaRule>, labels: map<string, string>, r: Place)
    requires r in c.rules
  {
    var g := GroupOf(c, r);
    Backs(c, owner, g) && r.name in InlineNames(g, rules, labels)
  }

  ghost function Retagged(c: Cloud, owner: Owner, rules: seq<SecaRule>, labels: map<string, string>): Cloud {
    var tags := TagsOf(labels);
    Cloud(map g | g in c.groups :: if Backs(c, owner, g) then c.groups[g].(tags := tags) else c.groups[g],
          map r | r in c.rules ::
              if Inherits(c, owner, rules, labels, r) then c.rules[r].(tags := tags) else c.rules[r])
  }

  /** The rule has the name of one of the group's first rules, as many as the inline rules make. */
  ghost predicate InlineRule(c: Cloud, g: Place, r: Place, rules: seq<SecaRule>, labels: map<string, string>) {
    && Under(c, g, r)
    && exists i: nat :: i < |Combos(InlineSpecs(rules, labels))| && r.name == g.name + "-r" + Decimal(i)
  }

  lemma InheritsIff(c: Cloud, owner: Owner, rules: seq<SecaRule>, labels: map<string, string>, r: Place)
    requires r in c.rules
    ensures Inherits(c, owner, rules, labels, r) <==>
            exists g :: Backs(c, owner, g) && InlineRule(c, g, r, rules, labels)
  {
    hide Combos, InlineSpecs;
    var own := GroupOf(c, r);
    if Inherits(c, owner, rules, labels, r) {
      var i :| 0 <= i < InlineCount(rules, labels) && RuleName(own.name, i) == r.name;
      assert InlineRule(c, own, r, rules, labels);
    }
    if g :| Backs(c, owner, g) && InlineRule(c, g, r, rules, labels) {
      assert g == own;
      var i: nat :| i < |Combos(InlineSpecs(rules, labels))| && r.name == g.name + "-r" + Decimal(i);
      assert RuleName(own.name, i) == r.name;
    }
  }

  /** All groups of the owner and the inline rules under them have the tags of the labels; all else is as it was. */
  lemma RetaggedExactly(c: Cloud, owner: Owner, rules: seq<SecaRule>, labels: map<string, string>)
    ensures var d := Retagged(c, owner, rules, labels);
            && d.groups.Keys == c.groups.Keys && d.rules.Keys == c.rules.Keys
            && (forall g :: g in c.groups ==>
                  d.groups[g] ==
                    if g.namespace == owner.namespace && c.groups[g].tenant == owner.tenant
                       && c.groups[g].seca == owner.name
                    then c.groups[g].(tags := TagsOf(labels)) else c.groups[g])
            && (forall r :: r in c.rules ==>
                  d.rules[r] ==
                    if exists g :: Backs(c, owner, g) && InlineRule(c, g, r, rules, labels)
                    then c.rules[r].(tags := TagsOf(labels)) else c.rules[r])
  {
    hide TagsOf, Combos, InlineSpecs;
    forall r | r in c.rules
      ensures Inherits(c, owner, rules, labels, r) <==>
              exists g :: Backs(c, owner, g) && InlineRule(c, g, r, rules, labels)
    {
      InheritsIff(c, owner, rules, labels, r);
    }
    hide Inherits, InlineRule;
  }

  /** What an update has come to: the objects it wrote, and those lost to others. */
  datatype Progress = Progress(groups: set<Place>, rules: set<Place>, gone: Losses)

  function Applied(c: Cloud, p: Progress, tags: seq<string>): Cloud {
    Minus(Cloud(map g | g in c.groups :: if g in p.groups then c.groups[g].(tags := tags) else c.groups[g],
                map r | r in c.rules :: if r in p.rules then c.rules[r].(tags := tags) else c.rules[r]),
          p.gone)
  }

  /** The groups and rules that do not have their tags yet. */
  function StaleGroups(c: Cloud, owner: Owner, tags: seq<string>): set<Place> {
    set g | g in c.groups && Backs(c, owner, g) && c.groups[g].tags != tags
  }

  function StaleRules(c: Cloud, owner: Owner, rules: seq<SecaRule>, labels: map<string, string>,
                      tags: seq<string>): set<Place> {
    set r | r in c.rules && Inherits(c, owner, rules, labels, r) && c.rules[r].tags != tags
  }

  /** An update of the owner with these inline rules and labels, begun with the objects `start`. */
  datatype Job = Job(start: Cloud, owner: Owner, rules: seq<SecaRule>, labels: map<string, string>)

  ghost function Wanted(j: Job): Cloud {
    Retagged(j.start, j.owner, j.rules, j.labels)
  }

  ghost function StaleGroupsOf(j: Job): set<Place> {
    StaleGroups(j.start, j.owner, TagsOf(j.labels))
  }

  ghost function StaleRulesOf(j: Job): set<Place> {
    StaleRules(j.start, j.owner, j.rules, j.labels, TagsOf(j.labels))
  }

  /** An interrupted update: only stale objects were written, each with its tags. */
  ghost predicate Retagging(j: Job, c: Cloud, p: Progress) {
    && p.groups <= StaleGroupsOf(j) && p.rules <= StaleRulesOf(j)
    && c == Applied(j.start, p, TagsOf(j.labels)) && Orderly(j.start, p.gone)
  }

  /** No group was lost before its rules. */
  ghost predicate Orderly(c: Cloud, gone: Losses) {
    forall r :: r in c.rules && r !in gone.rules ==> GroupOf(c, r) !in gone.groups
  }

  /** Writing tags moves no object to another owner or group. */
  lemma TagsMoveNothing(c: Cloud, p: Progress, tags: seq<string>, owner: Owner)
    ensures var d := Applied(c, p, tags);
            && d.groups.Keys == c.groups.Keys - p.gone.groups && d.rules.Keys == c.rules.Keys - p.gone.rules
            && (forall r :: r in d.rules ==> GroupOf(d, r) == GroupOf(c, r))
            && (forall g :: g in d.groups ==> Backs(d, owner, g) == Backs(c, owner, g))
  {
  }

  lemma RetaggedGroups(c: Cloud, owner: Owner, rules: seq<SecaRule>, labels: map<string, string>, p: Progress)
    requires p.groups <= StaleGroups(c, owner, TagsOf(labels))
    ensures Retagged(Applied(c, p, TagsOf(labels)), owner, rules, labels).groups
         == Minus(Retagged(c, owner, rules, labels), p.gone).groups
  {
    hide TagsOf, Inherits, InlineNames;
    TagsMoveNothing(c, p, TagsOf(labels), owner);
  }

  lemma RetaggedRules(c: Cloud, owner: Owner, rules: seq<SecaRule>, labels: map<string, string>, p: Progress)
    requires p.rules <= StaleRules(c, owner, rules, labels, TagsOf(labels)) && Orderly(c, p.gone)
    ensures Retagged(Applied(c, p, TagsOf(labels)), owner, rules, labels).rules
         == Minus(Retagged(c, owner, rules, labels), p.gone).rules
  {
    hide TagsOf, InlineNames;
    SameInheritance(c, owner, rules, labels, p, TagsOf(labels));
    hide Inherits;
  }

  lemma SameInheritance(c: Cloud, owner: Owner, rules: seq<SecaRule>, labels: map<string, string>, p: Progress,
                        tags: seq<string>)
    requires Orderly(c, p.gone)
    ensures var d := Applied(c, p, tags);
            && d.rules.Keys == c.rules.Keys - p.gone.rules
            && (forall r :: r in d.rules ==>
                Inherits(d, owner, rules, labels, r) == Inherits(c, owner, rules, labels, r))
  {
    hide InlineNames;
    var d := Applied(c, p, tags);
    TagsMoveNothing(c, p, tags, owner);
    hide Applied, Backs;
    forall r | r in d.rules
      ensures Inherits(d, owner, rules, labels, r) == Inherits(c, owner, rules, labels, r)
    {
      NotBacking(c, d, owner, GroupOf(c, r));
      assert GroupOf(c, r) in c.groups <==> GroupOf(c, r) in d.groups;
    }
  }

  lemma NotBacking(c: Cloud, d: Cloud, owner: Owner, g: Place)
    ensures g !in c.groups && g !in d.groups ==> !Backs(c, owner, g) && !Backs(d, owner, g)
  {
  }

  /** Wherever the update stops, running it again ends where it would have ended. */
  lemma StillRetagsTheSame(j: Job, c: Cloud, p: Progress)
    requires Retagging(j, c, p)
    ensures Retagged(c, j.owner, j.rules, j.labels) == Minus(Wanted(j), p.gone)
  {
    hide Retagged, Applied, StaleGroups, StaleRules, Minus, Orderly;
    RetaggedGroups(j.start, j.owner, j.rules, j.labels, p);
    RetaggedRules(j.start, j.owner, j.rules, j.labels, p);
  }

  /** With every stale object written or lost, the update is complete. */
  lemma CompletelyApplied(j: Job, p: Progress)
    requires p.groups <= StaleGroupsOf(j) <= p.groups + p.gone.groups
    requires p.rules <= StaleRulesOf(j) <= p.rules + p.gone.rules
    ensures Applied(j.start, p, TagsOf(j.labels)) == Minus(Wanted(j), p.gone)
  {
    hide Retagged, Applied, StaleGroups, StaleRules, Minus, TagsOf;
    AppliedGroups(j.start, j.owner, j.rules, j.labels, p, TagsOf(j.labels));
    AppliedRules(j.start, j.owner, j.rules, j.labels, p, TagsOf(j.labels));
  }

  lemma AppliedGroups(c: Cloud, owner: Owner, rules: seq<SecaRule>, labels: map<string, string>, p: Progress,
                      tags: seq<string>)
    requires tags == TagsOf(labels) && p.groups <= StaleGroups(c, owner, tags) <= p.groups + p.gone.groups
    ensures Applied(c, p, tags).groups == Minus(Retagged(c, owner, rules, labels), p.gone).groups
  {
    hide TagsOf, InlineNames, Inherits, Backs;
    forall g | g in c.groups && g !in p.gone.groups
      ensures Applied(c, p, tags).groups[g] == Retagged(c, owner, rules, labels).groups[g]
    {
      assert g in p.groups <==> g in StaleGroups(c, owner, tags);
    }
  }

  lemma AppliedRules(c: Cloud, owner: Owner, rules: seq<SecaRule>, labels: map<string, string>, p: Progress,
                     tags: seq<string>)
    requires tags == TagsOf(labels) && p.rules <= StaleRules(c, owner, rules, labels, tags) <= p.rules + p.gone.rules
    ensures Applied(c, p, tags).rules == Minus(Retagged(c, owner, rules, labels), p.gone).rules
  {
    hide TagsOf, InlineNames, Inherits, Backs;
    forall r | r in c.rules && r !in p.gone.rules
      ensures Applied(c, p, tags).rules[r] == Retagged(c, owner, rules, labels).rules[r]
    {
      assert r in p.rules <==> r in StaleRules(c, owner, rules, labels, tags);
    }
  }

  lemma RetaggingIsIdempotent(c: Cloud, owner: Owner, rules: seq<SecaRule>, labels: map<string, string>)
    ensures Retagged(Retagged(c, owner, rules, labels), owner, rules, labels) == Retagged(c, owner, rules, labels)
  {
    var j := Job(c, owner, rules, labels);
    var p := Progress(StaleGroupsOf(j), StaleRulesOf(j), Losses({}, {}));
    hide Retagged, Applied, StaleGroups, StaleRules, TagsOf;
    CompletelyApplied(j, p);
    StillRetagsTheSame(j, Applied(c, p, TagsOf(labels)), p);
    NothingLost(Retagged(c, owner, rules, labels));
  }

  lemma NothingLost(c: Cloud)
    ensures Minus(c, Losses({}, {})) == c
  {
  }

  // One more write, one more loss.

  lemma StaleIffDiffers(j: Job, g: Place)
    requires Backs(j.start, j.owner, g)
    ensures g in StaleGroupsOf(j) <==> j.start.groups[g].tags != TagsOf(j.labels)
  {
    hide TagsOf;
  }

  lemma GroupIsWritten(j: Job, c: Cloud, p: Progress, q: Progress, tags: seq<string>, g: Place)
    requires Retagging(j, c, q) && Later(p, q) && q == p.(gone := q.gone) && g in StaleGroupsOf(j) && g !in p.groups
    requires g in j.start.groups && tags == TagsOf(j.labels)
    ensures var next := j.start.groups[g].(tags := tags);
            var d := if g in c.groups then c.(groups := c.groups[g := next]) else c;
            Retagging(j, d, q.(groups := q.groups + {g})) && Later(p, q.(groups := q.groups + {g}))
    ensures |q.groups + {g}| == |p.groups| + 1
  {
    hide Applied, StaleGroupsOf, StaleRulesOf, TagsOf, Orderly;
    GroupWritten(j.start, q, tags, g);
  }

  lemma GroupWritten(c: Cloud, p: Progress, tags: seq<string>, g: Place)
    requires g in c.groups
    ensures var d := Applied(c, p, tags);
            Applied(c, p.(groups := p.groups + {g}), tags) ==
            if g in d.groups then d.(groups := d.groups[g := c.groups[g].(tags := tags)]) else d
  {
  }

  lemma RuleIsWritten(j: Job, c: Cloud, p: Progress, q: Progress, tags: seq<string>, r: Place)
    requires Retagging(j, c, q) && Later(p, q) && q == p.(gone := q.gone) && r in StaleRulesOf(j) && r !in p.rules
    requires r in j.start.rules && tags == TagsOf(j.labels)
    ensures var next := j.start.rules[r].(tags := tags);
            var d := if r in c.rules then c.(rules := c.rules[r := next]) else c;
            Retagging(j, d, q.(rules := q.rules + {r})) && Later(p, q.(rules := q.rules + {r}))
    ensures |q.rules + {r}| == |p.rules| + 1
  {
    hide Applied, StaleGroupsOf, StaleRulesOf, TagsOf, Orderly;
    RuleWritten(j.start, q, tags, r);
  }

  lemma RuleWritten(c: Cloud, p: Progress, tags: seq<string>, r: Place)
    requires r in c.rules
    ensures var d := Applied(c, p, tags);
            Applied(c, p.(rules := p.rules + {r}), tags) ==
            if r in d.rules then d.(rules := d.rules[r := c.rules[r].(tags := tags)]) else d
  {
  }

  lemma MoreLost(j: Job, c: Cloud, p: Progress, l: Losses)
    requires Retagging(j, c, p)
    ensures Retagging(j, Minus(c, Allowed(c, l)), p.(gone := Both(p.gone, Allowed(c, l))))
  {
    hide StaleGroupsOf, StaleRulesOf, TagsOf;
    var tags, lost := TagsOf(j.labels), Allowed(c, l);
    AppliedLess(j.start, p, tags, lost);
    TagsMoveNothing(j.start, p, tags, j.owner);
    forall r | r in j.start.rules && r !in p.gone.rules && r !in l.rules
      ensures GroupOf(j.start, r) !in lost.groups
    {
      assert r in c.rules && r in RulesUnder(c, GroupOf(j.start, r));
    }
  }

  ghost predicate Later(p: Progress, q: Progress) {
    p.groups <= q.groups && p.rules <= q.rules && p.gone.groups <= q.gone.groups && p.gone.rules <= q.gone.rules
  }

  lemma LaterAcross(p: Progress, q: Progress, r: Progress)
    ensures Later(p, p) && (Later(p, q) && Later(q, r) ==> Later(p, r))
  {
  }

  /** The groups that are not in `todo` have been dealt with, those in it not at all. */
  ghost predicate Visited(j: Job, p: Progress, todo: set<Place>) {
    && p.groups <= GroupsOf(j.start, j.owner) - todo
    && (forall g :: g in todo ==> p.rules !! RulesUnder(j.start, g))
    && (forall g :: g in GroupsOf(j.start, j.owner) - todo ==> DealtWith(j, p, g))
  }

  ghost predicate DealtWith(j: Job, p: Progress, g: Place) {
    && (g in StaleGroupsOf(j) ==> g in p.groups)
    && StaleRulesOf(j) * RulesUnder(j.start, g) <= p.rules + p.gone.rules
  }

  lemma JobBegins(j: Job)
    ensures var nothing := Progress({}, {}, Losses({}, {}));
            Retagging(j, j.start, nothing) && Visited(j, nothing, GroupsOf(j.start, j.owner))
    ensures forall g :: g in GroupsOf(j.start, j.owner) ==> Backs(j.start, j.owner, g)
  {
    hide TagsOf, Inherits;
    assert Applied(j.start, Progress({}, {}, Losses({}, {})), TagsOf(j.labels)) == j.start;
  }

  lemma VisitNext(j: Job, p: Progress, todo: set<Place>, g: Place)
    requires Visited(j, p, todo) && g in todo
    ensures g !in p.groups && p.rules !! RulesUnder(j.start, g)
  {
  }

  lemma VisitedOne(j: Job, p: Progress, q: Progress, todo: set<Place>, g: Place)
    requires Visited(j, p, todo) && g in todo && todo <= GroupsOf(j.start, j.owner) && Later(p, q)
    requires q.groups <= p.groups + {g} && q.rules <= p.rules + RulesUnder(j.start, g)
    requires DealtWith(j, q, g)
    ensures Visited(j, q, todo - {g})
  {
    hide StaleGroupsOf, StaleRulesOf, GroupsOf;
    forall k | k in todo - {g}
      ensures q.rules !! RulesUnder(j.start, k)
    {
      OwnRules(j.start, g, k);
    }
    forall k | k in GroupsOf(j.start, j.owner) - (todo - {g})
      ensures DealtWith(j, q, k)
    {
      if k != g {
        assert DealtWith(j, p, k);
      }
    }
  }

  /** No rule is under two groups. */
  lemma OwnRules(c: Cloud, g: Place, k: Place)
    requires g != k
    ensures RulesUnder(c, g) !! RulesUnder(c, k)
  {
  }

  /** The same for the rules listed under one group. */
  ghost predicate RulesVisited(j: Job, p: Progress, q: Progress, listed: set<Place>, todo: set<Place>) {
    && q.rules <= p.rules + (listed - todo)
    && (forall r :: r in listed - todo && r in StaleRulesOf(j) ==> r in q.rules)
  }

  lemma NoRulesVisited(j: Job, p: Progress, listed: set<Place>)
    ensures RulesVisited(j, p, p, listed, listed)
  {
  }

  /** Rules as they were when the update began; those that are stale can be told by name and tags. */
  ghost predicate Listing(j: Job, listed: map<Place, SecurityRule>, names: set<string>, tags: seq<string>) {
    forall r :: r in listed ==>
      && r in j.start.rules && listed[r] == j.start.rules[r]
      && (r in StaleRulesOf(j) <==> r.name in names && listed[r].tags != tags)
  }

  lemma NotVisitedYet(j: Job, p: Progress, q: Progress, listed: map<Place, SecurityRule>, todo: set<Place>, r: Place,
                      names: set<string>, tags: seq<string>)
    requires RulesVisited(j, p, q, listed.Keys, todo) && r in todo && todo <= listed.Keys && listed.Keys !! p.rules
    requires Listing(j, listed, names, tags)
    ensures r !in q.rules && r in j.start.rules && listed[r] == j.start.rules[r]
    ensures r in StaleRulesOf(j) <==> r.name in names && listed[r].tags != tags
  {
    hide StaleRulesOf;
  }

  lemma OneMoreVisited(j: Job, p: Progress, q: Progress, next: Progress, listed: set<Place>, todo: set<Place>, r: Place)
    requires RulesVisited(j, p, q, listed, todo) && r in todo && todo <= listed
    requires next.rules == if r in StaleRulesOf(j) then q.rules + {r} else q.rules
    ensures RulesVisited(j, p, next, listed, todo - {r})
  {
    hide StaleRulesOf;
  }

  lemma VisitStops(j: Job, p: Progress, q: Progress, listed: set<Place>, todo: set<Place>)
    requires RulesVisited(j, p, q, listed, todo)
    ensures q.rules <= p.rules + listed
    ensures todo == {} ==> forall r :: r in listed && r in StaleRulesOf(j) ==> r in q.rules
  {
    hide StaleRulesOf;
  }

  lemma JobStopped(j: Job, c: Cloud, p: Progress)
    requires Retagging(j, c, p)
    ensures Retagged(c, j.owner, j.rules, j.labels) == Minus(Wanted(j), p.gone)
    ensures |p.groups| <= |StaleGroupsOf(j)| && |p.rules| <= |StaleRulesOf(j)|
  {
    hide Retagged, StaleGroupsOf, StaleRulesOf, Applied, Minus;
    StillRetagsTheSame(j, c, p);
    SubsetSize(p.groups, StaleGroupsOf(j));
    SubsetSize(p.rules, StaleRulesOf(j));
  }

  lemma JobFinished(j: Job, c: Cloud, p: Progress)
    requires Retagging(j, c, p) && Visited(j, p, {})
    ensures c == Minus(Wanted(j), p.gone)
    ensures p.gone == Losses({}, {}) ==> |p.groups| == |StaleGroupsOf(j)| && |p.rules| == |StaleRulesOf(j)|
  {
    EverythingCovered(j, p);
    hide StaleGroupsOf, StaleRulesOf, Retagged, Applied, Minus;
    CompletelyApplied(j, p);
    if p.gone == Losses({}, {}) {
      assert p.groups == StaleGroupsOf(j) && p.rules == StaleRulesOf(j);
    }
  }

  lemma EverythingCovered(j: Job, p: Progress)
    requires Visited(j, p, {})
    ensures StaleGroupsOf(j) <= p.groups && StaleRulesOf(j) <= p.rules + p.gone.rules
  {
    hide TagsOf, InlineNames;
    forall g | g in StaleGroupsOf(j)
      ensures g in p.groups
    {
      assert g in GroupsOf(j.start, j.owner) && DealtWith(j, p, g);
    }
    forall r | r in StaleRulesOf(j)
      ensures r in p.rules + p.gone.rules
    {
      var g := GroupOf(j.start, r);
      assert g in GroupsOf(j.start, j.owner) && DealtWith(j, p, g) && r in RulesUnder(j.start, g);
    }
  }

  /** What is listed under a group that was not visited yet. */
  lemma ListedUnder(j: Job, c: Cloud, p: Progress, g: Place)
    requires Retagging(j, c, p) && p.rules !! RulesUnder(j.start, g)
    ensures forall r :: r in RulesUnder(c, g) ==>
              r in RulesUnder(j.start, g) && r in j.start.rules && r !in p.rules && c.rules[r] == j.start.rules[r]
    ensures RulesUnder(j.start, g) <= RulesUnder(c, g) + p.gone.rules
  {
    hide TagsOf, StaleGroupsOf, StaleRulesOf;
    forall r | r in RulesUnder(c, g)
      ensures r in RulesUnder(j.start, g)
    {
      assert c.rules[r].groupLabel == j.start.rules[r].groupLabel;
    }
  }

  lemma NothingBuilt(j: Job, g: Place)
    requires InlineCount(j.rules, j.labels) == 0
    ensures StaleRulesOf(j) * RulesUnder(j.start, g) == {}
  {
    hide TagsOf, InlineCount;
    forall r | r in RulesUnder(j.start, g)
      ensures r !in StaleRulesOf(j)
    {
      assert InlineNames(GroupOf(j.start, r), j.rules, j.labels) == {};
    }
  }

  lemma StaleAmongListed(j: Job, g: Place, r: Place)
    requires Backs(j.start, j.owner, g) && r in RulesUnder(j.start, g)
    ensures r in StaleRulesOf(j) <==>
              r.name in InlineNames(g, j.rules, j.labels) && j.start.rules[r].tags != TagsOf(j.labels)
  {
    hide TagsOf, InlineNames;
    assert GroupOf(j.start, r) == g;
  }

  lemma AppliedLess(c: Cloud, p: Progress, tags: seq<string>, l: Losses)
    ensures Minus(Applied(c, p, tags), l) == Applied(c, p.(gone := Both(p.gone, l)), tags)
  {
    LossesAdd(Applied(c, p.(gone := Losses({}, {})), tags), p.gone, l);
  }

  /** Labels decide tags only: they move no rule to another position. */
  lemma {:induction false} LabelsMoveNothing(rules: seq<SecaRule>, a: map<string, string>, b: map<string, string>)
    ensures InlineCount(rules, a) == InlineCount(rules, b)
  {
    if rules != [] {
      var front := rules[..|rules| - 1];
      LabelsMoveNothing(front, a, b);
      LastInline(rules, a);
      LastInline(rules, b);
      SameFan(rules[|rules| - 1], a, b);
    }
  }

  function FanOut(r: RuleSpec): seq<Combo> {
    OverProtocols(r, ArubaProtocols(r.protocol, r.hasIcmp))
  }

  lemma LastInline(rules: seq<SecaRule>, labels: map<string, string>)
    requires rules != []
    ensures InlineCount(rules, labels)
         == InlineCount(rules[..|rules| - 1], labels) + |FanOut(Normalized(rules[|rules| - 1], labels))|
  {
    hide OverProtocols, ArubaProtocols;
    var specs := InlineSpecs(rules, labels);
    assert specs[..|specs| - 1] == InlineSpecs(rules[..|rules| - 1], labels);
  }

  lemma SameFan(r: SecaRule, a: map<string, string>, b: map<string, string>)
    ensures |FanOut(Normalized(r, a))| == |FanOut(Normalized(r, b))|
  {
    var x, y := Normalized(r, a), Normalized(r, b);
    SameProtocols(x, y, ArubaProtocols(x.protocol, x.hasIcmp));
  }

  lemma {:induction false} SameProtocols(x: RuleSpec, y: RuleSpec, protocols: seq<string>)
    requires y == x.(labels := y.labels)
    ensures |OverProtocols(x, protocols)| == |OverProtocols(y, protocols)|
  {
    hide OverPorts;
    if protocols != [] {
      SameProtocols(x, y, protocols[..|protocols| - 1]);
      SamePorts(x, y, protocols[|protocols| - 1], ArubaPorts(x, protocols[|protocols| - 1]));
    }
  }

  lemma {:induction false} SamePorts(x: RuleSpec, y: RuleSpec, protocol: string, ports: seq<string>)
    requires y == x.(labels := y.labels)
    ensures |OverPorts(x, protocol, ports)| == |OverPorts(y, protocol, ports)|
  {
    if ports != [] {
      SamePorts(x, y, protocol, ports[..|ports| - 1]);
    }
  }

  /** The rules of a group are those its inline and referenced rules were expanded to. */
  ghost predicate Materialised(c: Cloud, g: Place, all: seq<SecurityRule>) {
    && (forall r :: Under(c, g, r) ==> exists i :: 0 <= i < |all| && r.name == all[i].name)
    && (forall i :: 0 <= i < |all| ==> Under(c, g, Place(g.namespace, all[i].name)))
  }

  /**
    A group was expanded from inline rules `made` and referenced rules; its inline rules are `now`. The
    update retags exactly the rules made from inline rules if and only if the inline rules of today
    reach exactly as far as those of then. An unchanged inline spec does, whatever its labels.
   */
  lemma RetagsExactlyInlineIff(c: Cloud, owner: Owner, g: Place, made: seq<SecaRule>, madeLabels: map<string, string>,
                               referenced: seq<RuleSpec>, now: seq<SecaRule>, labels: map<string, string>)
    requires Backs(c, owner, g)
    requires Materialised(c, g, Expansion(InlineSpecs(made, madeLabels) + referenced, g.name, g.namespace))
    ensures var all := Expansion(InlineSpecs(made, madeLabels) + referenced, g.name, g.namespace);
            var count, reach := InlineCount(made, madeLabels), InlineCount(now, labels);
            && count <= |all|
            && ((forall i :: 0 <= i < |all| ==>
                (Inherits(c, owner, now, labels, Place(g.namespace, all[i].name)) <==> i < count))
                <==> (reach == count || (count == |all| && reach > count)))
            && (now == made ==> reach == count)
  {
    var specs := InlineSpecs(made, madeLabels);
    var all := Expansion(specs + referenced, g.name, g.namespace);
    var count, reach := InlineCount(made, madeLabels), InlineCount(now, labels);
    hide *;
    InlineShare(g, made, madeLabels, referenced);
    LabelsMoveNothing(made, madeLabels, labels);
    PositionsInherit(c, owner, g, specs + referenced, now, labels);
    if count < reach && count < |all| {
      assert Inherits(c, owner, now, labels, Place(g.namespace, all[count].name));
    }
    if reach < count {
      assert !Inherits(c, owner, now, labels, Place(g.namespace, all[reach].name));
    }
  }

  lemma InlineShare(g: Place, made: seq<SecaRule>, labels: map<string, string>, referenced: seq<RuleSpec>)
    ensures InlineCount(made, labels) <= |Expansion(InlineSpecs(made, labels) + referenced, g.name, g.namespace)|
  {
    hide Combos, InlineSpecs;
    CombosAppend(InlineSpecs(made, labels), referenced);
  }

  /** The rules that inherit are those at the positions the inline rules reach. */
  lemma PositionsInherit(c: Cloud, owner: Owner, g: Place, specs: seq<RuleSpec>, now: seq<SecaRule>,
                         labels: map<string, string>)
    requires Backs(c, owner, g) && Materialised(c, g, Expansion(specs, g.name, g.namespace))
    ensures var all := Expansion(specs, g.name, g.namespace);
            forall i :: 0 <= i < |all| ==>
              && Place(g.namespace, all[i].name) in c.rules
              && (Inherits(c, owner, now, labels, Place(g.namespace, all[i].name)) <==> i < InlineCount(now, labels))
  {
    hide InlineNames, InlineCount, Combos, Backs;
    var all := Expansion(specs, g.name, g.namespace);
    forall i | 0 <= i < |all|
      ensures Place(g.namespace, all[i].name) in c.rules
      ensures Inherits(c, owner, now, labels, Place(g.namespace, all[i].name)) <==> i < InlineCount(now, labels)
    {
      assert Under(c, g, Place(g.namespace, all[i].name));
      assert GroupOf(c, Place(g.namespace, all[i].name)) == g;
      NameReach(g, i, now, labels);
    }
  }

  lemma NameReach(g: Place, i: nat, rules: seq<SecaRule>, labels: map<string, string>)
    ensures RuleName(g.name, i) in InlineNames(g, rules, labels) <==> i < InlineCount(rules, labels)
  {
    hide InlineCount;
    if RuleName(g.name, i) in InlineNames(g, rules, labels) {
      var j :| 0 <= j < InlineCount(rules, labels) && RuleName(g.name, j) == RuleName(g.name, i);
      NamesAreDistinct(g.name, i, j);
    }
  }

  lemma NamesOfBuilt(g: Place, rules: seq<SecaRule>, labels: map<string, string>, built: seq<SecurityRule>)
    requires built == Expansion(InlineSpecs(rules, labels), g.name, g.namespace)
    ensures (set i | 0 <= i < |built| :: built[i].name) == InlineNames(g, rules, labels)
    ensures |built| == InlineCount(rules, labels)
  {
    hide Combos, InlineSpecs;
    forall i | 0 <= i < |built|
      ensures built[i].name == RuleName(g.name, i)
    {
    }
    assert |built| == InlineCount(rules, labels);
  }

  // ---------- from building to reaping ----------

  /** These rules are in the store, under their own namespaces and names. */
  ghost predicate StoredIn(c: Cloud, rules: seq<SecurityRule>) {
    forall i :: 0 <= i < |rules| ==>
      && Place(rules[i].namespace, rules[i].name) in c.rules
      && c.rules[Place(rules[i].namespace, rules[i].name)] == rules[i]
  }

  /**
    A rule that was built for a group and stored is found under the group, and goes when the group is
    reaped; one that was built from an inline rule has the tags of the labels of its group.
   */
  lemma BuiltRulesAreReaped(c: Cloud, owner: Owner, g: Place, inline: seq<SecaRule>, labels: map<string, string>,
                            referenced: seq<RuleSpec>, i: nat)
    requires Backs(c, owner, g)
    requires StoredIn(c, Expansion(InlineSpecs(inline, labels) + referenced, g.name, g.namespace))
    requires i < |Expansion(InlineSpecs(inline, labels) + referenced, g.name, g.namespace)|
    ensures var rule := Expansion(InlineSpecs(inline, labels) + referenced, g.name, g.namespace)[i];
            var at := Place(g.namespace, g.name + "-r" + Decimal(i));
            && at in c.rules && c.rules[at] == rule && at in RulesUnder(c, g) && at !in Reaped(c, owner).rules
            && (i < InlineCount(inline, labels) ==> rule.tags == TagsOf(labels))
  {
    hide TagsOf, Combos, InlineSpecs;
    var specs := InlineSpecs(inline, labels);
    var all := Expansion(specs + referenced, g.name, g.namespace);
    assert all[i].namespace == g.namespace && all[i].groupLabel == g.name;
    assert GroupOf(c, Place(g.namespace, all[i].name)) == g;
    CombosAppend(specs, referenced);
    InlineLabels(inline, labels);
  }

  lemma {:induction false} InlineLabels(inline: seq<SecaRule>, labels: map<string, string>)
    ensures forall c :: c in Combos(InlineSpecs(inline, labels)) ==> c.labels == labels
  {
    hide OverProtocols, ArubaProtocols;
    if inline != [] {
      var specs, front := InlineSpecs(inline, labels), inline[..|inline| - 1];
      assert specs[..|specs| - 1] == InlineSpecs(front, labels);
      InlineLabels(front, labels);
      LabelsOverProtocols(specs[|specs| - 1], ArubaProtocols(specs[|specs| - 1].protocol, specs[|specs| - 1].hasIcmp));
    }
  }

  lemma {:induction false} LabelsOverProtocols(r: RuleSpec, protocols: seq<string>)
    ensures forall c :: c in OverProtocols(r, protocols) ==> c.labels == r.labels
  {
    hide OverPorts;
    if protocols != [] {
      LabelsOverProtocols(r, protocols[..|protocols| - 1]);
      LabelsOverPorts(r, protocols[|protocols| - 1], ArubaPorts(r, protocols[|protocols| - 1]));
    }
  }

  lemma {:induction false} LabelsOverPorts(r: RuleSpec, protocol: string, ports: seq<string>)
    ensures forall c :: c in OverPorts(r, protocol, ports) ==> c.labels == r.labels
  {
    if ports != [] {
      LabelsOverPorts(r, protocol, ports[..|ports| - 1]);
    }
  }

  /** Stores each rule under its namespace and name. */
  method StoreRules(c: Cloud, rules: seq<SecurityRule>) returns (stored: Cloud)
    requires forall i, j :: 0 <= i < j < |rules| ==> rules[i].name != rules[j].name
    ensures StoredIn(stored, rules) && stored.groups == c.groups && c.rules.Keys <= stored.rules.Keys
  {
    stored := c;
    for i := 0 to |rules|
      invariant StoredIn(stored, rules[..i]) && stored.groups == c.groups && c.rules.Keys <= stored.rules.Keys
    {
      stored := stored.(rules := stored.rules[Place(rules[i].namespace, rules[i].name) := rules[i]]);
    }
    assert rules[..|rules|] == rules;
  }

  /** A group is materialised with its rules, and reaped: nothing of it is left. */
  method BuildAndReap(c: Cloud, owner: Owner, g: Place, tags: seq<string>, inline: seq<SecaRule>,
                      labels: map<string, string>, referenced: seq<RuleSpec>)
    returns (made: Cloud, left: Cloud)
    requires g.namespace == owner.namespace
    ensures var n := |Combos(InlineSpecs(inline, labels) + referenced)|;
            && g in made.groups && g !in left.groups
            && (forall i :: 0 <= i < n ==>
                  var at := Place(g.namespace, g.name + "-r" + Decimal(i));
                  at in made.rules && at !in left.rules)
    ensures forall other: Owner :: other != owner ==> GroupsOf(left, other) == GroupsOf(made, other)
  {
    hide Combos, Reaped, TagsOf, RuleName;
    var start := c.(groups := c.groups[g := Group(owner.tenant, owner.name, tags)]);
    var specs := NormalizeInlineRules(inline, labels);
    var rules := BuildSecurityRules(specs + referenced, g.name, g.namespace);
    InlineRulesLead(specs, referenced, g.name, g.namespace);
    made := StoreRules(start, rules);
    var provider := new Provider(made);
    var _, gone := provider.Reap(owner, Undisturbed(None));
    left := provider.cloud;
    NothingLost(Reaped(made, owner));
    ReapedExactly(made, owner);
    assert Backs(made, owner, g) && g in GroupsOf(made, owner);
    forall i: nat | i < |rules|
      ensures var at := Place(g.namespace, g.name + "-r" + Decimal(i)); at in made.rules && at !in left.rules
    {
      BuiltRulesAreReaped(made, owner, g, inline, labels, referenced, i);
    }
  }

  // ---------- the provider ----------

  class Provider {
    var cloud: Cloud
    var writes: nat
    var deletions: nat
    // Every state the objects went through, oldest first, the present one included.
    ghost var past: seq<Cloud>

    constructor (cloud: Cloud)
      ensures this.cloud == cloud && writes == deletions == 0 && past == [cloud]
    {
      this.cloud, writes, deletions, past := cloud, 0, 0, [cloud];
    }

    /** Others remove objects. */
    method Lose(l: Losses)
      modifies this
      ensures writes == old(writes) && deletions == old(deletions)
      ensures cloud == Minus(old(cloud), Allowed(old(cloud), l)) && past == old(past) + [cloud]
    {
      cloud := Minus(cloud, Allowed(cloud, l));
      past := past + [cloud];
    }

    method DeleteRule(r: Place)
      modifies this
      ensures cloud == WithoutRule(old(cloud), r) && past == old(past) + [cloud] && writes == old(writes)
      ensures deletions == old(deletions) + 1
    {
      if r in cloud.rules {
        cloud := WithoutRule(cloud, r);
      }
      deletions, past := deletions + 1, past + [cloud];
    }

    method DeleteGroup(g: Place)
      modifies this
      ensures cloud == WithoutGroup(old(cloud), g) && past == old(past) + [cloud] && writes == old(writes)
      ensures deletions == old(deletions) + 1
    {
      if g in cloud.groups {
        cloud := WithoutGroup(cloud, g);
      }
      deletions, past := deletions + 1, past + [cloud];
    }

    method Proceed(run: Run, calls: nat, ghost start: Cloud, ghost owner: Owner, ghost before: Losses)
      returns (alive: bool, ghost gone: Losses)
      requires OnTheWay(start, cloud, owner, before)
      modifies this
      ensures OnTheWay(start, cloud, owner, gone) && Shrunk(old(cloud), cloud) && writes == old(writes)
      ensures past == old(past) || past == old(past) + [cloud]
      ensures run.others == [] ==> gone == before && cloud == old(cloud)
      ensures deletions == old(deletions)
      ensures alive <==> run.budget.None? || calls < run.budget.value
    {
      gone := before;
      if calls < |run.others| {
        AfterLosses(start, cloud, owner, before, run.others[calls]);
        gone := Both(before, Allowed(cloud, run.others[calls]));
        Lose(run.others[calls]);
      }
      alive := run.budget.None? || calls < run.budget.value;
    }

    method ReapRule(owner: Owner, g: Place, r: Place, run: Run, calls: nat,
                    ghost start: Cloud, ghost before: Losses)
      returns (done: bool, after: nat, ghost gone: Losses)
      requires OnTheWay(start, cloud, owner, before) && Backs(start, owner, g) && Under(start, g, r)
      modifies this
      ensures OnTheWay(start, cloud, owner, gone) && Shrunk(old(cloud), cloud) && writes == old(writes)
      ensures Trail(start, past, |old(past)|, owner) && old(past) <= past
      ensures RulesUnder(cloud, g) <= RulesUnder(old(cloud), g)
      ensures done ==> r !in RulesUnder(cloud, g)
      ensures run.others == [] ==> gone == before
      ensures Stops(run, calls, after, done) && deletions == old(deletions) + after - calls
    {
      hide Stops, Backs, Reaped;
      after := calls;
      done, gone := Proceed(run, calls, start, owner, before);
      OneCall(run, calls, done);
      if done {
        AfterRule(start, cloud, owner, gone, g, r);
        DeleteRule(r);
        after := calls + 1;
      }
      ShrunkRules(old(cloud), cloud, g);
    }

    method ReapRules(owner: Owner, g: Place, run: Run, calls: nat, ghost start: Cloud, ghost before: Losses)
      returns (done: bool, after: nat, ghost gone: Losses)
      requires OnTheWay(start, cloud, owner, before) && Shrunk(start, cloud) && Backs(start, owner, g)
      modifies this
      ensures OnTheWay(start, cloud, owner, gone) && Shrunk(old(cloud), cloud) && writes == old(writes)
      ensures Trail(start, past, |old(past)|, owner) && old(past) <= past
      ensures done ==> RulesUnder(cloud, g) == {}
      ensures run.others == [] ==> gone == before
      ensures Stops(run, calls, after, done) && deletions == old(deletions) + after - calls
    {
      hide Stops, Backs, Under, Intact, Reaped, WithoutRule;
      gone, after := before, calls;
      NoCallsYet(run, calls);
      var todo := RulesUnder(cloud, g);
      ShrunkRules(start, cloud, g);
      while todo != {}
        invariant OnTheWay(start, cloud, owner, gone) && Shrunk(old(cloud), cloud) && writes == old(writes)
        invariant Trail(start, past, |old(past)|, owner) && old(past) <= past
        invariant RulesUnder(cloud, g) <= todo && forall r :: r in todo ==> Under(start, g, r)
        invariant run.others == [] ==> gone == before
        invariant Stops(run, calls, after, true) && deletions == old(deletions) + after - calls
        decreases |todo|
      {
        var r :| r in todo;
        var alive;
        ghost var made := after;
        alive, after, gone := ReapRule(owner, g, r, run, after, start, gone);
        CallsAdd(run, calls, made, after, alive);
        if !alive {
          return false, after, gone;
        }
        todo := todo - {r};
      }
      done := true;
    }

    method ReapGroup(owner: Owner, g: Place, run: Run, calls: nat, ghost start: Cloud, ghost before: Losses)
      returns (done: bool, after: nat, ghost gone: Losses)
      requires OnTheWay(start, cloud, owner, before) && g in GroupsOf(start, owner)
      modifies this
      ensures OnTheWay(start, cloud, owner, gone) && Shrunk(start, cloud) && writes == old(writes)
      ensures Trail(start, past, |old(past)|, owner) && old(past) <= past
      ensures GroupsOf(cloud, owner) <= GroupsOf(old(cloud), owner)
      ensures done ==> g !in GroupsOf(cloud, owner)
      ensures run.others == [] ==> gone == before
      ensures Stops(run, calls, after, done) && deletions == old(deletions) + after - calls
    {
      hide Stops, Reaped, NoOrphans, Under, WithoutRule;
      done, after, gone := ReapRules(owner, g, run, calls, start, before);
      ShrunkGroups(old(cloud), cloud, owner);
      if !done {
        return;
      }
      ghost var bare := cloud;
      ghost var made := after;
      done, gone := Proceed(run, after, start, owner, gone);
      OneCall(run, made, done);
      CallsAdd(run, calls, made, if done then made + 1 else made, done);
      ShrunkRules(bare, cloud, g);
      ShrunkGroups(bare, cloud, owner);
      if done {
        AfterGroup(start, cloud, owner, gone, g);
        DeleteGroup(g);
        after := after + 1;
        ShrunkGroups(bare, cloud, owner);
      }
    }

    /**
      Stopped anywhere, the run has left no rule without its group, and a later run can still find
      everything this one would have removed; run to the end, nothing of the owner is left.
     */
    method Reap(owner: Owner, run: Run) returns (done: bool, ghost gone: Losses)
      modifies this
      ensures OnTheWay(old(cloud), cloud, owner, gone) && writes == old(writes)
      ensures Trail(old(cloud), past, |old(past)|, owner) && old(past) <= past
      ensures done ==> cloud == Minus(Reaped(old(cloud), owner), gone)
      ensures run.others == [] ==> gone == Losses({}, {})
      ensures Stops(run, 0, deletions - old(deletions), done)
    {
      hide Stops, Backs, Under, Reaped, WithoutGroup, Intact;
      var start, calls := cloud, 0;
      gone := Losses({}, {});
      AtTheStart(start, owner);
      NoCallsYet(run, 0);
      var todo := GroupsOf(cloud, owner);
      while todo != {}
        invariant OnTheWay(start, cloud, owner, gone) && Shrunk(start, cloud) && writes == old(writes)
        invariant Trail(start, past, |old(past)|, owner) && old(past) <= past
        invariant GroupsOf(cloud, owner) <= todo && todo <= GroupsOf(start, owner)
        invariant run.others == [] ==> gone == Losses({}, {})
        invariant Stops(run, 0, calls, true) && deletions == old(deletions) + calls
        decreases |todo|
      {
        var g :| g in todo;
        ghost var made := calls;
        done, calls, gone := ReapGroup(owner, g, run, calls, start, gone);
        CallsAdd(run, 0, made, calls, done);
        if !done {
          return;
        }
        todo := todo - {g};
      }
      NothingLeftToReap(cloud, owner);
      done := true;
    }

    /** Runs that fail, each after any number of deletions, and then one that does not: they end as that one alone. */
    method ReapAgain(owner: Owner, failsAfter: seq<nat>)
      modifies this
      ensures cloud == Reaped(old(cloud), owner)
      ensures Trail(old(cloud), past, |old(past)|, owner)
    {
      hide Reaped, Intact, NoOrphans;
      AtTheStart(cloud, owner);
      NothingLost(Reaped(cloud, owner));
      for i := 0 to |failsAfter|
        invariant OnTheWay(old(cloud), cloud, owner, Losses({}, {}))
        invariant Trail(old(cloud), past, |old(past)|, owner) && old(past) <= past
      {
        ghost var middle, seen := cloud, past;
        var _, _ := Reap(owner, Undisturbed(Some(failsAfter[i])));
        Continued(old(cloud), middle, cloud, owner, seen, past, |old(past)|);
      }
      ghost var middle, seen := cloud, past;
      var _, _ := Reap(owner, Undisturbed(None));
      Continued(old(cloud), middle, cloud, owner, seen, past, |old(past)|);
      NothingLost(Reaped(middle, owner));
    }

    // ---------- retagging ----------

    method UpdateGroup(g: Place, next: Group)
      modifies this`cloud, this`writes
      ensures cloud ==
                if g in old(cloud).groups then old(cloud).(groups := old(cloud).groups[g := next]) else old(cloud)
      ensures writes == old(writes) + 1
    {
      if g in cloud.groups {
        cloud := cloud.(groups := cloud.groups[g := next]);
      }
      writes := writes + 1;
    }

    method UpdateRule(r: Place, next: SecurityRule)
      modifies this`cloud, this`writes
      ensures cloud == if r in old(cloud).rules then old(cloud).(rules := old(cloud).rules[r := next]) else old(cloud)
      ensures writes == old(writes) + 1
    {
      if r in cloud.rules {
        cloud := cloud.(rules := cloud.rules[r := next]);
      }
      writes := writes + 1;
    }

    /** Others remove objects; then the call is made, unless the run fails here. */
    method Pause(run: Run, calls: nat, ghost j: Job, ghost p: Progress) returns (alive: bool, ghost q: Progress)
      requires Retagging(j, cloud, p)
      modifies this
      ensures Retagging(j, cloud, q) && q == p.(gone := q.gone) && Later(p, q) && writes == old(writes)
      ensures run.others == [] ==> q == p
      ensures alive <==> run.budget.None? || calls < run.budget.value
    {
      hide Retagging;
      q := p;
      if calls < |run.others| {
        MoreLost(j, cloud, p, run.others[calls]);
        q := p.(gone := Both(p.gone, Allowed(cloud, run.others[calls])));
        Lose(run.others[calls]);
      }
      alive := run.budget.None? || calls < run.budget.value;
    }

    method RetagRule(r: Place, listed: SecurityRule, tags: seq<string>, run: Run, calls: nat, ghost j: Job,
                     ghost p: Progress)
      returns (done: bool, ghost q: Progress)
      requires Retagging(j, cloud, p) && tags == TagsOf(j.labels)
      requires r in StaleRulesOf(j) && r !in p.rules && listed == j.start.rules[r]
      modifies this
      ensures Retagging(j, cloud, q) && Later(p, q) && q.groups == p.groups
      ensures writes == old(writes) + |q.rules| - |p.rules|
      ensures q.rules == if done then p.rules + {r} else p.rules
      ensures run.others == [] ==> q.gone == p.gone
      ensures done <==> run.budget.None? || calls < run.budget.value
    {
      assert r in j.start.rules;
      hide *;
      done, q := Pause(run, calls, j, p);
      if done {
        RuleIsWritten(j, cloud, p, q, tags, r);
        UpdateRule(r, listed.(tags := tags));
        q := q.(rules := q.rules + {r});
      }
    }

    /** One listed rule: it is written if it has an inline name and other tags. */
    method VisitRule(r: Place, listed: SecurityRule, names: set<string>, tags: seq<string>, run: Run, calls: nat,
                     ghost j: Job, ghost p: Progress)
      returns (done: bool, after: nat, ghost q: Progress)
      requires Retagging(j, cloud, p) && tags == TagsOf(j.labels)
      requires r in j.start.rules && r !in p.rules && listed == j.start.rules[r]
      requires r in StaleRulesOf(j) <==> r.name in names && listed.tags != tags
      modifies this
      ensures Retagging(j, cloud, q) && Later(p, q) && q.groups == p.groups
      ensures writes == old(writes) + |q.rules| - |p.rules|
      ensures q.rules == if done && r in StaleRulesOf(j) then p.rules + {r} else p.rules
      ensures run.others == [] ==> q.gone == p.gone
      ensures Stops(run, calls, after, done) && writes == old(writes) + after - calls
    {
      hide *;
      LaterAcross(p, p, p);
      done, after, q := true, calls, p;
      NoCallsYet(run, calls);
      if r.name in names && listed.tags != tags {
        done, q := RetagRule(r, listed, tags, run, calls, j, p);
        OneCall(run, calls, done);
        after := if done then calls + 1 else calls;
      }
    }

    /** The rules listed for a group. */
    method RetagRules(listed: map<Place, SecurityRule>, names: set<string>, tags: seq<string>, run: Run, calls: nat,
                      ghost j: Job, ghost p: Progress)
      returns (done: bool, after: nat, ghost q: Progress)
      requires Retagging(j, cloud, p) && tags == TagsOf(j.labels) && listed.Keys !! p.rules
      requires Listing(j, listed, names, tags)
      modifies this
      ensures Retagging(j, cloud, q) && Later(p, q) && q.groups == p.groups
      ensures writes == old(writes) + |q.rules| - |p.rules|
      ensures q.rules <= p.rules + listed.Keys
      ensures done ==> forall r :: r in listed && r in StaleRulesOf(j) ==> r in q.rules
      ensures run.others == [] ==> q.gone == p.gone
      ensures Stops(run, calls, after, done) && writes == old(writes) + after - calls
    {
      hide *;
      var todo := listed.Keys;
      after, q := calls, p;
      NoCallsYet(run, calls);
      LaterAcross(p, p, p);
      NoRulesVisited(j, p, listed.Keys);
      while todo != {}
        invariant todo <= listed.Keys
        invariant Retagging(j, cloud, q) && Later(p, q) && q.groups == p.groups
        invariant writes == old(writes) + |q.rules| - |p.rules| && RulesVisited(j, p, q, listed.Keys, todo)
        invariant run.others == [] ==> q.gone == p.gone
        invariant Stops(run, calls, after, true) && writes == old(writes) + after - calls
        decreases |todo|
      {
        var r :| r in todo;
        ghost var before := q;
        NotVisitedYet(j, p, q, listed, todo, r, names, tags);
        ghost var made := after;
        done, after, q := VisitRule(r, listed[r], names, tags, run, after, j, q);
        LaterAcross(p, before, q);
        CallsAdd(run, calls, made, after, done);
        if !done {
          VisitStops(j, p, before, listed.Keys, todo);
          return;
        }
        OneMoreVisited(j, p, before, q, listed.Keys, todo, r);
        todo := todo - {r};
      }
      VisitStops(j, p, q, listed.Keys, todo);
      done := true;
    }

    /** The rules made from inline rules are found again by building them anew. */
    method UpdateInlineRuleTags(g: Place, rules: seq<SecaRule>, labels: map<string, string>, tags: seq<string>,
                                run: Run, calls: nat, ghost j: Job, ghost p: Progress)
      returns (done: bool, after: nat, ghost q: Progress)
      requires Retagging(j, cloud, p) && tags == TagsOf(labels) && rules == j.rules && labels == j.labels
      requires Backs(j.start, j.owner, g) && p.rules !! RulesUnder(j.start, g)
      modifies this
      ensures Retagging(j, cloud, q) && Later(p, q) && q.groups == p.groups
      ensures writes == old(writes) + |q.rules| - |p.rules|
      ensures q.rules <= p.rules + RulesUnder(j.start, g)
      ensures done ==> StaleRulesOf(j) * RulesUnder(j.start, g) <= q.rules + q.gone.rules
      ensures run.others == [] ==> q.gone == p.gone
      ensures Stops(run, calls, after, done) && writes == old(writes) + after - calls
    {
      hide Stops, InlineNames, Expansion, TagsOf, Retagging, StaleRulesOf;
      NoCallsYet(run, calls);
      var names := BuildInlineNames(g, rules, labels);
      if names == {} {
        NothingBuilt(j, g);
        return true, calls, p;
      }
      ListedUnder(j, cloud, p, g);
      var listed := map r | r in RulesUnder(cloud, g) :: cloud.rules[r];
      forall r | r in listed
        ensures r in StaleRulesOf(j) <==> r.name in names && listed[r].tags != tags
      {
        StaleAmongListed(j, g, r);
      }
      done, after, q := RetagRules(listed, names, tags, run, calls, j, p);
    }

    method UpdateGroupTags(g: Place, listed: Group, tags: seq<string>, run: Run, calls: nat, ghost j: Job,
                           ghost p: Progress)
      returns (done: bool, after: nat, ghost q: Progress)
      requires Retagging(j, cloud, p) && tags == TagsOf(j.labels)
      requires Backs(j.start, j.owner, g) && g !in p.groups && listed == j.start.groups[g]
      modifies this
      ensures Retagging(j, cloud, q) && Later(p, q) && q.rules == p.rules
      ensures writes == old(writes) + |q.groups| - |p.groups|
      ensures q.groups <= p.groups + {g}
      ensures done ==> (g in StaleGroupsOf(j) ==> g in q.groups)
      ensures run.others == [] ==> q.gone == p.gone
      ensures Stops(run, calls, after, done) && writes == old(writes) + after - calls
    {
      StaleIffDiffers(j, g);
      hide *;
      LaterAcross(p, p, p);
      NoCallsYet(run, calls);
      if listed.tags == tags {
        return true, calls, p;
      }
      after := calls;
      done, q := Pause(run, calls, j, p);
      OneCall(run, calls, done);
      if done {
        GroupIsWritten(j, cloud, p, q, tags, g);
        UpdateGroup(g, listed.(tags := tags));
        q, after := q.(groups := q.groups + {g}), calls + 1;
      }
    }

    /** One materialised group: first its inline rules, then the group itself. */
    method UpdateOne(g: Place, listed: Group, rules: seq<SecaRule>, labels: map<string, string>, tags: seq<string>,
                     run: Run, calls: nat, ghost j: Job, ghost p: Progress)
      returns (done: bool, after: nat, ghost q: Progress)
      requires Retagging(j, cloud, p) && tags == TagsOf(labels) && rules == j.rules && labels == j.labels
      requires Backs(j.start, j.owner, g) && listed == j.start.groups[g]
      requires g !in p.groups && p.rules !! RulesUnder(j.start, g)
      modifies this
      ensures Retagging(j, cloud, q) && Later(p, q)
      ensures writes == old(writes) + |q.groups| - |p.groups| + |q.rules| - |p.rules|
      ensures q.groups <= p.groups + {g} && q.rules <= p.rules + RulesUnder(j.start, g)
      ensures done ==> DealtWith(j, q, g)
      ensures run.others == [] ==> q.gone == p.gone
      ensures Stops(run, calls, after, done) && writes == old(writes) + after - calls
    {
      hide Stops, Retagging, StaleRulesOf, StaleGroupsOf, TagsOf, RulesUnder, Backs;
      done, after, q := UpdateInlineRuleTags(g, rules, labels, tags, run, calls, j, p);
      if done {
        ghost var made := after;
        done, after, q := UpdateGroupTags(g, listed, tags, run, after, j, q);
        CallsAdd(run, calls, made, after, done);
      }
    }

    /**
      Stopped anywhere, a later update still ends where this one would have ended; run to the end, the
      owner's groups and inline rules have their tags and nothing else changed. Only objects without
      their tags were written, each once.
     */
    method Update(owner: Owner, rules: seq<SecaRule>, labels: map<string, string>, run: Run)
      returns (done: bool, ghost gone: Losses)
      modifies this
      ensures var j := Job(old(cloud), owner, rules, labels);
              && Retagged(cloud, owner, rules, labels) == Minus(Wanted(j), gone)
              && (done ==> cloud == Minus(Wanted(j), gone))
              && writes <= old(writes) + |StaleGroupsOf(j)| + |StaleRulesOf(j)|
              && (done && run.others == [] ==> writes == old(writes) + |StaleGroupsOf(j)| + |StaleRulesOf(j)|)
      ensures run.others == [] ==> gone == Losses({}, {})
      ensures Stops(run, 0, writes - old(writes), done)
    {
      var tags := CanonicalTags(labels);
      var listed := ListGroups(owner);
      hide *;
      ghost var j, p := Job(cloud, owner, rules, labels), Progress({}, {}, Losses({}, {}));
      JobBegins(j);
      NoCallsYet(run, 0);
      var todo, calls := listed.Keys, 0;
      while todo != {}
        invariant todo <= listed.Keys && Retagging(j, cloud, p) && Visited(j, p, todo)
        invariant writes == old(writes) + |p.groups| + |p.rules|
        invariant run.others == [] ==> p.gone == Losses({}, {})
        invariant Stops(run, 0, calls, true) && writes == old(writes) + calls
        decreases |todo|
      {
        var g :| g in todo;
        VisitNext(j, p, todo, g);
        ghost var before, made := p, calls;
        done, calls, p := UpdateOne(g, listed[g], rules, labels, tags, run, calls, j, p);
        CallsAdd(run, 0, made, calls, done);
        if !done {
          gone := p.gone;
          JobStopped(j, cloud, p);
          return;
        }
        VisitedOne(j, before, p, todo, g);
        todo := todo - {g};
      }
      done, gone := true, p.gone;
      JobStopped(j, cloud, p);
      JobFinished(j, cloud, p);
    }

    method ListGroups(owner: Owner) returns (listed: map<Place, Group>)
      ensures listed.Keys == GroupsOf(cloud, owner)
      ensures forall g :: g in listed ==> Backs(cloud, owner, g) && listed[g] == cloud.groups[g]
    {
      listed := map g | g in GroupsOf(cloud, owner) :: cloud.groups[g];
    }

    /** Updates that fail, each after any number of writes, and then one that does not: they end as that one alone. */
    method UpdateAgain(owner: Owner, rules: seq<SecaRule>, labels: map<string, string>, failsAfter: seq<nat>)
      modifies this
      ensures cloud == Retagged(old(cloud), owner, rules, labels)
    {
      hide Retagged, Minus, StaleGroupsOf, StaleRulesOf;
      for i := 0 to |failsAfter|
        invariant Retagged(cloud, owner, rules, labels) == Retagged(old(cloud), owner, rules, labels)
      {
        NothingLost(Retagged(cloud, owner, rules, labels));
        var _, _ := Update(owner, rules, labels, Undisturbed(Some(failsAfter[i])));
      }
      NothingLost(Retagged(cloud, owner, rules, labels));
      var _, _ := Update(owner, rules, labels, Undisturbed(None));
    }
  }

  method BuildInlineNames(g: Place, rules: seq<SecaRule>, labels: map<string, string>) returns (names: set<string>)
    ensures names == InlineNames(g, rules, labels)
    ensures names == {} ==> InlineCount(rules, labels) == 0
  {
    hide Expansion, Combos, InlineNames;
    var specs := NormalizeInlineRules(rules, labels);
    assert specs == InlineSpecs(rules, labels);
    var built := BuildSecurityRules(specs, g.name, g.namespace);
    NamesOfBuilt(g, rules, labels, built);
    names := set i | 0 <= i < |built| :: built[i].name;
    if |built| > 0 {
      assert built[0].name in names;
    }
  }

  method CanonicalTags(labels: map<string, string>) returns (tags: seq<string>)
    ensures tags == TagsOf(labels)
  {
    tags := ArubaTags(labels);
    TagsAreUnique(tags, TagsOf(labels));
  }
}
