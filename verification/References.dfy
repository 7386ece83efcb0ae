/**
  References between resources. The stored form carries tenant and workspace as fields, the domain
  form embeds them in the resource path. Both conversions work on string positions; on paths made of
  well-formed segments they undo each other.
 */
module References {
  import opened Prelude

  datatype Reference = Reference(
    provider: string,
    region: string,
    tenant: string,
    workspace: string,
    resource: string)

  // ---------- string positions ----------

  function LastSlash(s: string): (i: int)
    ensures -1 <= i < |s|
    ensures i >= 0 ==> s[i] == '/'
    ensures forall j :: i < j < |s| ==> s[j] != '/'
  {
    if s == "" then -1
    else if s[|s| - 1] == '/' then |s| - 1
    else LastSlash(s[..|s| - 1])
  }

  /** The first position at which `sub` occurs, or -1. */
  function IndexOf(s: string, sub: string): (i: int)
    ensures i >= -1
    ensures i >= 0 ==> i + |sub| <= |s| && s[i..i + |sub|] == sub
  {
    if sub <= s then 0
    else if s == "" then -1
    else
      var i := IndexOf(s[1..], sub);
      if i < 0 then -1 else i + 1
  }

  // ---------- the conversions ----------

  function ScopePath(tenant: string, workspace: string): string {
    if tenant != "" && workspace != "" then "tenants" + "/" + tenant + "/" + "workspaces" + "/" + workspace
    else if tenant != "" then "tenants" + "/" + tenant
    else if workspace != "" then "workspaces" + "/" + workspace
    else ""
  }

  function EmbedScopeInResource(path: string, tenant: string, workspace: string): string {
    EmbedInResource(path, ScopePath(tenant, workspace))
  }

  function EmbedInResource(path: string, scope: string): string {
    var last := LastSlash(path);
    if last < 0 then path
    else
      var second := LastSlash(path[..last]);
      var prefix := if second >= 0 then path[..second] else "";
      var suffix := if second >= 0 then path[second + 1..] else path;
      if prefix != "" then prefix + "/" + scope + "/" + suffix
      else scope + "/" + suffix
  }

  datatype Extracted = Extracted(value: string, remaining: string)

  /** `segment` ends in a slash, as in "tenants/". */
  function ExtractAndStripSegment(path: string, segment: string): Extracted {
    if segment <= path then CutAt(path, 0, |segment|)
    else
      var at := IndexOf(path, "/" + segment);
      if at < 0 then Extracted("", "") else CutAt(path, at, at + 1 + |segment|)
  }

  /** Takes out the value that starts at `start`; what is before `at` stays in front of the rest. */
  function CutAt(path: string, at: nat, start: nat): Extracted
    requires at <= start <= |path|
  {
    var end := IndexOf(path[start..], "/");
    if end < 0 then
      Extracted(path[start..], if at > 0 then path[..at] else "")
    else
      var suffix := path[start + end + 1..];
      Extracted(path[start..start + end], if at > 0 then path[..at] + "/" + suffix else suffix)
  }

  function ReferenceFromCR(ref: Reference): Reference {
    Reference(
      ref.provider, ref.region, "", "",
      if ref.tenant != "" || ref.workspace != ""
      then EmbedScopeInResource(ref.resource, ref.tenant, ref.workspace)
      else ref.resource)
  }

  /** One field: taken from the reference if set there, else extracted from the path. */
  function Field(given: string, path: string, key: string): Extracted {
    if given != "" then Extracted(given, path)
    else
      var e := ExtractAndStripSegment(path, key + "/");
      if e.value != "" then e else Extracted("", path)
  }

  function ToCR(ref: Reference): Reference {
    var p := Field(ref.provider, ref.resource, "providers");
    var r := Field(ref.region, p.remaining, "regions");
    var t := Field(ref.tenant, r.remaining, "tenants");
    var w := Field(ref.workspace, t.remaining, "workspaces");
    Reference(p.value, r.value, t.value, w.value, w.remaining)
  }

  method ReferenceToCR(ref: Reference) returns (result: Reference)
    ensures result == ToCR(ref)
  {
    var path := ref.resource;
    result := Reference("", "", "", "", "");
    if ref.provider == "" {
      var e := ExtractAndStripSegment(path, "providers" + "/");
      if e.value != "" {
        result := result.(provider := e.value);
        path := e.remaining;
      }
    } else {
      result := result.(provider := ref.provider);
    }
    if ref.region == "" {
      var e := ExtractAndStripSegment(path, "regions" + "/");
      if e.value != "" {
        result := result.(region := e.value);
        path := e.remaining;
      }
    } else {
      result := result.(region := ref.region);
    }
    if ref.tenant == "" {
      var e := ExtractAndStripSegment(path, "tenants" + "/");
      if e.value != "" {
        result := result.(tenant := e.value);
        path := e.remaining;
      }
    } else {
      result := result.(tenant := ref.tenant);
    }
    if ref.workspace == "" {
      var e := ExtractAndStripSegment(path, "workspaces" + "/");
      if e.value != "" {
        result := result.(workspace := e.value);
        path := e.remaining;
      }
    } else {
      result := result.(workspace := ref.workspace);
    }
    result := result.(resource := path);
  }

  // ---------- paths as lists of segments ----------

  predicate SlashFree(s: string) {
    '/' !in s
  }

  ghost predicate Segments(segs: seq<string>) {
    forall s :: s in segs ==> s != "" && SlashFree(s)
  }

  function Join(segs: seq<string>): string {
    if segs == [] then ""
    else if |segs| == 1 then segs[0]
    else segs[0] + "/" + Join(segs[1..])
  }

  lemma {:induction false} JoinAppend(a: seq<string>, b: seq<string>)
    requires a != [] && b != []
    ensures Join(a + b) == Join(a) + "/" + Join(b)
  {
    if |a| == 1 {
      assert (a + b)[1..] == b;
    } else {
      assert (a + b)[1..] == a[1..] + b;
      JoinAppend(a[1..], b);
    }
  }

  lemma {:induction false} NoSlashBehind(s: string, tail: string)
    requires SlashFree(tail)
    ensures LastSlash(s + tail) == LastSlash(s)
  {
    if tail == "" {
      assert s + tail == s;
    } else {
      assert (s + tail)[..|s + tail| - 1] == s + tail[..|tail| - 1];
      NoSlashBehind(s, tail[..|tail| - 1]);
    }
  }

  lemma LastSlashOfJoin(segs: seq<string>, last: string)
    requires segs != [] && SlashFree(last)
    ensures LastSlash(Join(segs + [last])) == |Join(segs)|
    ensures Join(segs + [last]) == Join(segs) + "/" + last
  {
    JoinAppend(segs, [last]);
    NoSlashBehind(Join(segs) + "/", last);
  }

  lemma LastSlashOfOne(s: string)
    requires SlashFree(s)
    ensures LastSlash(s) == -1
  {
    NoSlashBehind("", s);
    assert "" + s == s;
  }

  /** Something that starts with a slash cannot start inside a slash-free piece. */
  lemma {:induction false} IndexSkips(head: string, tail: string, sub: string)
    requires SlashFree(head) && sub != "" && sub[0] == '/'
    ensures IndexOf(head + tail, sub) == if IndexOf(tail, sub) < 0 then -1 else |head| + IndexOf(tail, sub)
  {
    if head == "" {
      assert head + tail == tail;
    } else {
      assert (head + tail)[0] == head[0] && head[0] in head;
      assert (head + tail)[1..] == head[1..] + tail;
      IndexSkips(head[1..], tail, sub);
    }
  }

  /** The first segment equal to `key` that has another segment after it. */
  function Find(segs: seq<string>, key: string): (i: int)
    ensures -1 <= i < |segs| - 1 || i == -1
    ensures i >= 0 ==> segs[i] == key
  {
    if |segs| < 2 then -1
    else if segs[0] == key then 0
    else
      var i := Find(segs[1..], key);
      if i < 0 then -1 else i + 1
  }

  lemma {:induction false} SameFirstSegment(a: string, b: string, x: string, y: string)
    requires SlashFree(a) && SlashFree(b) && a + ("/" + x) == b + ("/" + y)
    ensures a == b && x == y
  {
    var t := a + ("/" + x);
    assert t[0] == if a == "" then '/' else a[0];
    assert t[0] == if b == "" then '/' else b[0];
    if a == "" || b == "" {
      assert a == "" && b == "";
      assert t[1..] == x && t[1..] == y;
    } else {
      assert t[1..] == a[1..] + ("/" + x) && t[1..] == b[1..] + ("/" + y);
      SameFirstSegment(a[1..], b[1..], x, y);
      assert a == [a[0]] + a[1..] && b == [b[0]] + b[1..];
    }
  }

  // Plain facts about sequences, kept apart from everything else.

  lemma PrefixSplits(key: string, path: string)
    requires key + "/" <= path
    ensures path == key + ("/" + path[|key| + 1..]) && '/' in path
  {
    assert path[|key|] == '/';
  }

  lemma SlicesOf(path: string, start: nat, value: string, rest: string)
    requires start <= |path| && path[start..] == value + ("/" + rest)
    ensures start + |value| + 1 <= |path|
    ensures path[start..start + |value|] == value
    ensures path[start + |value| + 1..] == rest
  {
    assert path[start..start + |value|] == path[start..][..|value|];
    assert path[start + |value| + 1..] == path[start..][|value| + 1..];
  }

  lemma SplitAtPair(s: seq<string>, i: nat)
    requires i + 1 < |s|
    ensures s == Pair(s[..i], s[i], s[i + 1], s[i + 2..])
  {
  }

  lemma SplitBeforeLastTwo(s: seq<string>)
    requires |s| >= 2
    ensures s == s[..|s| - 2] + [s[|s| - 2], s[|s| - 1]]
  {
  }

  lemma NoPrefixOfSlashFree(key: string, s: string)
    requires SlashFree(s)
    ensures !(key + "/" <= s)
  {
    if key + "/" <= s {
      PrefixSplits(key, s);
      assert false;
    }
  }

  lemma PrefixOfPair(key: string, s: string, rest: string)
    requires SlashFree(key) && SlashFree(s)
    ensures key + "/" <= s + ("/" + rest) <==> s == key
  {
    var path := s + ("/" + rest);
    if key + "/" <= path {
      PrefixSplits(key, path);
      SameFirstSegment(s, key, rest, path[|key| + 1..]);
    }
    assert path == (s + "/") + rest;
  }

  lemma PrefixIffFirst(segs: seq<string>, key: string)
    requires Segments(segs) && segs != [] && key != "" && SlashFree(key)
    ensures key + "/" <= Join(segs) <==> |segs| >= 2 && segs[0] == key
  {
    assert segs[0] in segs;
    if |segs| == 1 {
      NoPrefixOfSlashFree(key, segs[0]);
    } else {
      assert Join(segs) == segs[0] + ("/" + Join(segs[1..]));
      PrefixOfPair(key, segs[0], Join(segs[1..]));
    }
  }

  lemma IndexStep(s: string, sub: string)
    requires s != ""
    ensures IndexOf(s, sub) ==
            if sub <= s then 0 else if IndexOf(s[1..], sub) < 0 then -1 else IndexOf(s[1..], sub) + 1
  {
  }

  lemma FindStep(segs: seq<string>, key: string)
    requires segs != []
    ensures Find(segs, key) ==
            if |segs| >= 2 && segs[0] == key then 0
            else if Find(segs[1..], key) < 0 then -1
            else Find(segs[1..], key) + 1
  {
  }

  lemma BehindSlash(s: string, t: string)
    ensures ("/" + s)[1..] == s
    ensures "/" + s <= "/" + t <==> s <= t
  {
    assert ("/" + s)[1..] == s && ("/" + t)[1..] == t;
  }

  /** Searching for "/key/" from a separator on. */
  lemma {:induction false} IndexFromSeparator(rest: seq<string>, key: string)
    requires Segments(rest) && rest != [] && key != "" && SlashFree(key)
    ensures var i := Find(rest, key);
            IndexOf("/" + Join(rest), "/" + (key + "/")) ==
            if i < 0 then -1 else if i == 0 then 0 else 1 + |Join(rest[..i])|
    decreases |rest|
  {
    hide IndexOf, Join, Find, Segments, SlashFree;
    PrefixIffFirst(rest, key);
    FindStep(rest, key);
    BehindSlash(key + "/", Join(rest));
    BehindSlash(Join(rest), "");
    IndexStep("/" + Join(rest), "/" + (key + "/"));
    if Find(rest, key) != 0 {
      IndexInSegments(rest, key);
    }
  }

  /** Searching for "/key/" from the start of a segment on. */
  lemma {:induction false} IndexInSegments(segs: seq<string>, key: string)
    requires Segments(segs) && segs != [] && key != "" && SlashFree(key)
    ensures var i := Find(segs[1..], key);
            IndexOf(Join(segs), "/" + (key + "/")) == if i < 0 then -1 else |Join(segs[..i + 1])|
    decreases |segs|, 0
  {
    hide IndexOf;
    var s, rest := segs[0], segs[1..];
    var sub := "/" + (key + "/");
    assert s in segs;
    if rest == [] {
      IndexSkips(s, "", sub);
      assert s + "" == s;
    } else {
      assert Join(segs) == s + ("/" + Join(rest));
      IndexSkips(s, "/" + Join(rest), sub);
      IndexFromSeparator(rest, key);
      var i := Find(rest, key);
      if i == 0 {
        assert segs[..1] == [s];
      } else if i > 0 {
        assert segs[..i + 1] == [s] + rest[..i];
        JoinAppend([s], rest[..i]);
      }
    }
  }

  /** A value in a path, and what follows it. */
  function Tail(value: string, after: Option<string>): string {
    if after.None? then value else value + ("/" + after.value)
  }

  lemma ValueEnds(value: string, after: Option<string>)
    requires SlashFree(value)
    ensures IndexOf(Tail(value, after), "/") == if after.None? then -1 else |value|
  {
    if after.None? {
      IndexSkips(value, "", "/");
      assert value + "" == value;
    } else {
      IndexSkips(value, "/" + after.value, "/");
      assert "/" <= "/" + after.value;
    }
  }

  lemma CutValue(path: string, before: string, start: nat, value: string, after: Option<string>)
    requires SlashFree(value) && |before| <= start <= |path|
    requires path[..|before|] == before && path[start..] == Tail(value, after)
    ensures CutAt(path, |before|, start) ==
            Extracted(value, if after.None? then before
                             else if before == "" then after.value
                             else before + "/" + after.value)
  {
    ValueEnds(value, after);
    if after.Some? {
      SlicesOf(path, start, value, after.value);
    }
  }

  /** On text: a value at the start of the path. */
  lemma ExtractAtStart(segment: string, value: string, after: Option<string>)
    requires SlashFree(value)
    ensures ExtractAndStripSegment(segment + Tail(value, after), segment)
         == Extracted(value, if after.None? then "" else after.value)
  {
    var path := segment + Tail(value, after);
    assert segment <= path && path[|segment|..] == Tail(value, after) && path[..0] == "";
    CutValue(path, "", |segment|, value, after);
  }

  /** On text: a value further on. */
  lemma StripsBehind(path: string, segment: string)
    requires !(segment <= path) && IndexOf(path, "/" + segment) >= 0
    ensures IndexOf(path, "/" + segment) + 1 + |segment| <= |path|
    ensures ExtractAndStripSegment(path, segment) ==
            CutAt(path, IndexOf(path, "/" + segment), IndexOf(path, "/" + segment) + 1 + |segment|)
  {
  }

  lemma StripsNothing(path: string, segment: string)
    requires !(segment <= path) && IndexOf(path, "/" + segment) < 0
    ensures ExtractAndStripSegment(path, segment) == Extracted("", "")
  {
  }

  lemma Concatenated(a: string, b: string, c: string)
    ensures (a + b + c)[..|a|] == a && (a + b + c)[|a| + |b|..] == c
  {
  }

  lemma CutBetween(before: string, middle: string, value: string, after: Option<string>)
    requires SlashFree(value) && before != ""
    ensures CutAt(before + middle + Tail(value, after), |before|, |before| + |middle|) ==
            Extracted(value, if after.None? then before else before + "/" + after.value)
  {
    hide CutAt, Tail;
    Concatenated(before, middle, Tail(value, after));
    CutValue(before + middle + Tail(value, after), before, |before| + |middle|, value, after);
  }

  lemma StripsBetween(path: string, before: string, segment: string, value: string, after: Option<string>)
    requires before != "" && SlashFree(value) && path == before + ("/" + segment) + Tail(value, after)
    requires !(segment <= path) && IndexOf(path, "/" + segment) == |before|
    ensures ExtractAndStripSegment(path, segment) ==
            Extracted(value, if after.None? then before else before + "/" + after.value)
  {
    hide *;
    CutBetween(before, "/" + segment, value, after);
    StripsBehind(path, segment);
  }

  function Rest(segs: seq<string>): Option<string> {
    if segs == [] then None else Some(Join(segs))
  }

  lemma JoinHead(s: string, segs: seq<string>)
    ensures Join([s] + segs) == Tail(s, Rest(segs))
  {
    if segs != [] {
      JoinAppend([s], segs);
    } else {
      assert [s] + segs == [s];
    }
  }

  /** Where the key is found in the text of the path. */
  lemma WhereKeyIs(segs: seq<string>, key: string)
    requires Segments(segs) && segs != [] && key != "" && SlashFree(key)
    ensures var i, path := Find(segs, key), Join(segs);
            && (key + "/" <= path <==> i == 0)
            && (i < 0 ==> IndexOf(path, "/" + (key + "/")) < 0)
            && (i > 0 ==> IndexOf(path, "/" + (key + "/")) == |Join(segs[..i])|)
  {
    hide IndexOf, Join;
    PrefixIffFirst(segs, key);
    IndexInSegments(segs, key);
  }

  /** On segments: the value is the one after the key, and both are taken out of the list. */
  lemma ExtractOnSegments(segs: seq<string>, key: string)
    requires Segments(segs) && segs != [] && key != "" && SlashFree(key)
    ensures var i, e := Find(segs, key), ExtractAndStripSegment(Join(segs), key + "/");
            if i < 0 then e == Extracted("", "")
            else e == Extracted(segs[i + 1], Join(segs[..i] + segs[i + 2..]))
  {
    hide IndexOf, Join, Find, ExtractAndStripSegment, Pair;
    var i := Find(segs, key);
    WhereKeyIs(segs, key);
    if i >= 0 {
      SplitAtPair(segs, i);
      var front, value := segs[..i], segs[i + 1];
      assert value in segs && (forall s :: s in front ==> s in segs);
      if i == 0 {
        assert front == [];
        ExtractFirst(key, value, segs[i + 2..]);
      } else {
        ExtractLater(front, key, value, segs[i + 2..]);
      }
    } else {
      StripsNothing(Join(segs), key + "/");
    }
  }

  function Pair(front: seq<string>, key: string, value: string, back: seq<string>): seq<string> {
    front + ([key] + ([value] + back))
  }

  lemma JoinOfPair(front: seq<string>, key: string, value: string, back: seq<string>)
    ensures Join(Pair([], key, value, back)) == (key + "/") + Tail(value, Rest(back))
    ensures front != [] ==>
              Join(Pair(front, key, value, back)) == Join(front) + ("/" + (key + "/")) + Tail(value, Rest(back))
  {
    var inner := [value] + back;
    JoinHead(value, back);
    JoinAppend([key], inner);
    assert Pair([], key, value, back) == [key] + inner;
    if front != [] {
      JoinAppend(front, [key] + inner);
    }
  }

  lemma JoinAround(front: seq<string>, back: seq<string>)
    ensures front == [] ==> Join(front + back) == if back == [] then "" else Join(back)
    ensures front != [] ==> Join(front + back) == if back == [] then Join(front) else Join(front) + "/" + Join(back)
  {
    if front == [] {
      assert front + back == back;
    } else if back == [] {
      assert front + back == front;
    } else {
      JoinAppend(front, back);
    }
  }

  lemma ExtractFirst(key: string, value: string, back: seq<string>)
    requires SlashFree(value)
    ensures ExtractAndStripSegment(Join(Pair([], key, value, back)), key + "/") == Extracted(value, Join([] + back))
  {
    hide ExtractAndStripSegment, Join, Tail, Pair;
    JoinOfPair([], key, value, back);
    JoinAround([], back);
    ExtractAtStart(key + "/", value, Rest(back));
  }

  lemma ExtractLater(front: seq<string>, key: string, value: string, back: seq<string>)
    requires key != "" && SlashFree(value) && Segments(front) && front != []
    requires var path := Join(Pair(front, key, value, back));
             !(key + "/" <= path) && IndexOf(path, "/" + (key + "/")) == |Join(front)|
    ensures ExtractAndStripSegment(Join(Pair(front, key, value, back)), key + "/") ==
              Extracted(value, Join(front + back))
  {
    hide *;
    JoinNonEmpty(front);
    JoinOfPair(front, key, value, back);
    JoinAround(front, back);
    RestIsJoined(back);
    StripsBetween(Join(Pair(front, key, value, back)), Join(front), key + "/", value, Rest(back));
  }

  lemma RestIsJoined(segs: seq<string>)
    ensures Rest(segs).None? <==> segs == []
    ensures segs != [] ==> Rest(segs) == Some(Join(segs))
  {
  }

  lemma JoinNonEmpty(segs: seq<string>)
    requires Segments(segs) && segs != []
    ensures Join(segs) != ""
  {
    assert segs[0] in segs;
  }

  // ---------- the conversions on lists of segments ----------

  /** A key and its value as two segments of a path; nothing for an empty value. */
  function Part(key: string, value: string): seq<string> {
    if value != "" then [key, value] else []
  }

  function Scope(tenant: string, workspace: string): seq<string> {
    Part("tenants", tenant) + Part("workspaces", workspace)
  }

  /** The scope goes in front of the last two segments; a shorter path does not take it. */
  function Embedded(segs: seq<string>, tenant: string, workspace: string): seq<string> {
    if |segs| < 2 then segs
    else segs[..|segs| - 2] + (Scope(tenant, workspace) + segs[|segs| - 2..])
  }

  /** The value of a field: as given, or else what stands behind its key in the path. */
  function Value(given: string, segs: seq<string>, key: string): string {
    if given == "" && Find(segs, key) >= 0 then segs[Find(segs, key) + 1] else given
  }

  /** The path without the key and the value that were taken from it. */
  function Others(given: string, segs: seq<string>, key: string): seq<string> {
    if given == "" && Find(segs, key) >= 0 then segs[..Find(segs, key)] + segs[Find(segs, key) + 2..] else segs
  }

  /** The resource is the path of the given segments, and the scope can be written into a path. */
  ghost predicate PathOf(ref: Reference, segs: seq<string>) {
    Segments(segs) && ref.resource == Join(segs) && SlashFree(ref.tenant) && SlashFree(ref.workspace)
  }

  /** On text: the scope goes in front of the last two segments. */
  lemma EmbedShort(a: string, b: string, scope: string)
    requires SlashFree(a) && SlashFree(b)
    ensures EmbedInResource(a + "/" + b, scope) == scope + "/" + (a + "/" + b)
  {
    NoSlashBehind(a + "/", b);
    assert (a + "/" + b)[..|a|] == a;
    LastSlashOfOne(a);
  }

  lemma LastTwoSlashes(front: string, a: string, b: string)
    requires SlashFree(a) && SlashFree(b)
    ensures var path := front + "/" + a + "/" + b;
            && LastSlash(path) == |front| + 1 + |a|
            && LastSlash(path[..|front| + 1 + |a|]) == |front|
            && path[..|front|] == front && path[|front| + 1..] == a + "/" + b
  {
    var path := front + "/" + a + "/" + b;
    NoSlashBehind(front + "/" + a + "/", b);
    NoSlashBehind(front + "/", a);
    assert path[..|front| + 1 + |a|] == front + "/" + a;
    assert path[|front| + 1..] == a + "/" + b;
  }

  lemma SecondSlashFirst(path: string, scope: string, last: nat, second: nat)
    requires LastSlash(path) == last && LastSlash(path[..last]) == second && second > 0
    ensures EmbedInResource(path, scope) == path[..second] + "/" + scope + "/" + path[second + 1..]
  {
    hide LastSlash;
  }

  lemma EmbedLong(front: string, a: string, b: string, scope: string)
    requires SlashFree(a) && SlashFree(b) && front != ""
    ensures EmbedInResource(front + "/" + a + "/" + b, scope) == front + "/" + scope + "/" + (a + "/" + b)
  {
    hide LastSlash, EmbedInResource, SlashFree;
    LastTwoSlashes(front, a, b);
    SecondSlashFirst(front + "/" + a + "/" + b, scope, |front| + 1 + |a|, |front|);
  }

  lemma EmbedAroundPair(front: seq<string>, a: string, b: string, scope: seq<string>)
    requires Segments(front) && SlashFree(a) && SlashFree(b) && scope != []
    ensures EmbedInResource(Join(front + [a, b]), Join(scope)) == Join(front + (scope + [a, b]))
  {
    assert [a] + [b] == [a, b];
    JoinAppend([a], [b]);
    JoinAppend(scope, [a, b]);
    if front == [] {
      assert front + [a, b] == [a, b] && front + (scope + [a, b]) == scope + [a, b];
      EmbedShort(a, b, Join(scope));
    } else {
      JoinAppend(front, [a, b]);
      JoinNonEmpty(front);
      JoinAppend(front, scope + [a, b]);
      EmbedLong(Join(front), a, b, Join(scope));
      Associate(Join(front), Join(scope), a, b);
    }
  }

  lemma Associate(f: string, s: string, a: string, b: string)
    ensures f + "/" + a + "/" + b == f + "/" + (a + "/" + b)
    ensures f + "/" + s + "/" + (a + "/" + b) == f + "/" + (s + "/" + (a + "/" + b))
  {
  }

  lemma ScopeText(tenant: string, workspace: string)
    requires tenant != "" || workspace != ""
    ensures Join(Scope(tenant, workspace)) == ScopePath(tenant, workspace)
  {
    var t, w := ["tenants", tenant], ["workspaces", workspace];
    assert t[1..] == [tenant] && w[1..] == [workspace];
    assert Join(t) == "tenants" + "/" + tenant && Join(w) == "workspaces" + "/" + workspace;
    if tenant != "" && workspace != "" {
      JoinAppend(t, w);
    }
  }

  lemma ShortPathStays(segs: seq<string>, scope: string)
    requires Segments(segs) && |segs| < 2
    ensures EmbedInResource(Join(segs), scope) == Join(segs)
  {
    if |segs| == 1 {
      assert segs[0] in segs;
      LastSlashOfOne(segs[0]);
    }
  }

  /** On segments: embedding puts the scope in front of the last two, if there are two. */
  lemma EmbedOnSegments(segs: seq<string>, tenant: string, workspace: string)
    requires Segments(segs) && (tenant != "" || workspace != "")
    ensures EmbedScopeInResource(Join(segs), tenant, workspace) == Join(Embedded(segs, tenant, workspace))
  {
    hide EmbedInResource, Join;
    if |segs| < 2 {
      ShortPathStays(segs, ScopePath(tenant, workspace));
    } else {
      var front, a, b := segs[..|segs| - 2], segs[|segs| - 2], segs[|segs| - 1];
      SplitBeforeLastTwo(segs);
      assert segs[|segs| - 2..] == [a, b];
      assert a in segs && b in segs && (forall s :: s in front ==> s in segs);
      ScopeText(tenant, workspace);
      EmbedAroundPair(front, a, b, Scope(tenant, workspace));
    }
  }

  lemma SliceOfSegments(segs: seq<string>, from: nat, to: nat)
    requires Segments(segs) && from <= to <= |segs|
    ensures Segments(segs[from..to])
  {
    hide SlashFree;
    assert forall s :: s in segs[from..to] ==> s in segs;
  }

  lemma MoreSegments(a: seq<string>, b: seq<string>)
    requires Segments(a) && Segments(b)
    ensures Segments(a + b)
  {
    hide SlashFree;
  }

  lemma ScopeIsSegments(tenant: string, workspace: string)
    requires SlashFree(tenant) && SlashFree(workspace)
    ensures Segments(Scope(tenant, workspace))
  {
    assert SlashFree("tenants") && SlashFree("workspaces");
  }

  lemma EmbeddedAreSegments(segs: seq<string>, tenant: string, workspace: string)
    requires Segments(segs) && SlashFree(tenant) && SlashFree(workspace)
    ensures Segments(Embedded(segs, tenant, workspace))
    ensures tenant == "" && workspace == "" ==> Embedded(segs, tenant, workspace) == segs
  {
    hide Segments, SlashFree;
    if |segs| >= 2 {
      var front, back := segs[..|segs| - 2], segs[|segs| - 2..];
      assert segs == front + back && back == segs[|segs| - 2..|segs|];
      SliceOfSegments(segs, 0, |segs| - 2);
      SliceOfSegments(segs, |segs| - 2, |segs|);
      ScopeIsSegments(tenant, workspace);
      MoreSegments(Scope(tenant, workspace), back);
      MoreSegments(front, Scope(tenant, workspace) + back);
    }
  }

  /** Loading a stored reference is embedding on its segments. */
  lemma FromCROnSegments(ref: Reference, segs: seq<string>)
    requires PathOf(ref, segs)
    ensures var path := Embedded(segs, ref.tenant, ref.workspace);
            Segments(path) && ReferenceFromCR(ref) == Reference(ref.provider, ref.region, "", "", Join(path))
  {
    hide EmbedScopeInResource, Embedded, Join;
    EmbeddedAreSegments(segs, ref.tenant, ref.workspace);
    if ref.tenant != "" || ref.workspace != "" {
      EmbedOnSegments(segs, ref.tenant, ref.workspace);
    }
  }

  lemma NothingInNothing(key: string)
    ensures ExtractAndStripSegment("", key + "/") == Extracted("", "")
  {
    assert !(key + "/" <= "");
  }

  lemma TakenFromSegments(given: string, segs: seq<string>, key: string)
    requires Segments(segs)
    ensures Segments(Others(given, segs, key))
    ensures Value(given, segs, key) == given <==> Others(given, segs, key) == segs
    ensures SlashFree(given) ==> SlashFree(Value(given, segs, key))
  {
    var i := Find(segs, key);
    if i >= 0 {
      assert segs[i + 1] in segs;
      hide Segments, SlashFree;
      SliceOfSegments(segs, 0, i);
      SliceOfSegments(segs, i + 2, |segs|);
      MoreSegments(segs[..i], segs[i + 2..]);
      assert |segs[..i] + segs[i + 2..]| == |segs| - 2;
    }
  }

  /** One field, on segments. */
  lemma FieldOnSegments(given: string, segs: seq<string>, key: string)
    requires Segments(segs) && key != "" && SlashFree(key)
    ensures Field(given, Join(segs), key) == Extracted(Value(given, segs, key), Join(Others(given, segs, key)))
  {
    hide ExtractAndStripSegment;
    if segs == [] {
      NothingInNothing(key);
    } else {
      ExtractOnSegments(segs, key);
    }
    if Find(segs, key) >= 0 {
      assert segs[Find(segs, key) + 1] in segs;
    }
  }

  /** Storing a reference takes the four fields out of its segments, one after the other. */
  lemma ToCROnSegments(ref: Reference, segs: seq<string>)
    requires Segments(segs) && ref.resource == Join(segs)
    ensures var p := Others(ref.provider, segs, "providers");
            var r := Others(ref.region, p, "regions");
            var t := Others(ref.tenant, r, "tenants");
            var w := Others(ref.workspace, t, "workspaces");
            && Segments(w)
            && ToCR(ref) == Reference(
                 Value(ref.provider, segs, "providers"), Value(ref.region, p, "regions"),
                 Value(ref.tenant, r, "tenants"), Value(ref.workspace, t, "workspaces"), Join(w))
  {
    hide Field, Join, Others, Value, Segments;
    var p := Others(ref.provider, segs, "providers");
    var r := Others(ref.region, p, "regions");
    var t := Others(ref.tenant, r, "tenants");
    FieldOnSegments(ref.provider, segs, "providers");
    TakenFromSegments(ref.provider, segs, "providers");
    FieldOnSegments(ref.region, p, "regions");
    TakenFromSegments(ref.region, p, "regions");
    FieldOnSegments(ref.tenant, r, "tenants");
    TakenFromSegments(ref.tenant, r, "tenants");
    FieldOnSegments(ref.workspace, t, "workspaces");
    TakenFromSegments(ref.workspace, t, "workspaces");
  }

  lemma {:induction false} AbsentIff(segs: seq<string>, key: string)
    ensures Find(segs, key) < 0 <==> segs == [] || key !in segs[..|segs| - 1]
  {
    if |segs| >= 2 {
      AbsentIff(segs[1..], key);
      assert segs[..|segs| - 1] == [segs[0]] + segs[1..][..|segs| - 2];
    }
  }

  /** Taking one field out does not bring another one into being. */
  lemma StillAbsent(given: string, segs: seq<string>, key: string, other: string)
    requires Find(segs, other) < 0
    ensures Find(Others(given, segs, key), other) < 0
  {
    var i, rest := Find(segs, key), Others(given, segs, key);
    AbsentIff(segs, other);
    AbsentIff(rest, other);
    if rest != segs && rest != [] {
      var front, back := segs[..i], segs[i + 2..];
      assert rest == front + back;
      forall k | 0 <= k < |rest| - 1
        ensures rest[k] in segs[..|segs| - 1]
      {
        assert rest[k] == segs[..|segs| - 1][if k < i then k else k + 2];
      }
    }
  }

  lemma TakenOnce(given: string, segs: seq<string>, key: string)
    ensures Value(given, segs, key) == "" ==> given == "" && (Find(segs, key) < 0 || segs[Find(segs, key) + 1] == "")
    ensures Find(segs, key) < 0 && given == "" ==> Value(given, segs, key) == "" && Others(given, segs, key) == segs
    ensures given != "" ==> Value(given, segs, key) == given && Others(given, segs, key) == segs
  {
  }

  lemma FoundIsNotEmpty(segs: seq<string>, key: string)
    requires Segments(segs) && Find(segs, key) >= 0
    ensures segs[Find(segs, key) + 1] != ""
  {
    assert segs[Find(segs, key) + 1] in segs;
  }

  /** A field that was taken once is not taken again, whatever was taken in between. */
  lemma FieldSettled(given: string, segs: seq<string>, key: string)
    requires Segments(segs)
    ensures Value(given, segs, key) == "" ==> Find(Others(given, segs, key), key) < 0
  {
    hide Segments, Find, Join;
    if Find(segs, key) >= 0 {
      FoundIsNotEmpty(segs, key);
    }
  }

  ghost predicate Settled(value: string, segs: seq<string>, key: string) {
    value == "" ==> Find(segs, key) < 0
  }

  lemma StaysSettled(value: string, given: string, segs: seq<string>, key: string, other: string)
    requires Settled(value, segs, other)
    ensures Settled(value, Others(given, segs, key), other)
  {
    if value == "" {
      StillAbsent(given, segs, key, other);
    }
  }

  /** Storing what is stored already changes nothing, whatever the segments are. */
  lemma StoringIsIdempotent(ref: Reference, segs: seq<string>)
    requires Segments(segs) && ref.resource == Join(segs)
    ensures ToCR(ToCR(ref)) == ToCR(ref)
  {
    hide ToCR, Join, Find, Others, Value, Segments;
    var p := Others(ref.provider, segs, "providers");
    var r := Others(ref.region, p, "regions");
    var t := Others(ref.tenant, r, "tenants");
    var w := Others(ref.workspace, t, "workspaces");
    ToCROnSegments(ref, segs);
    TakenFromSegments(ref.provider, segs, "providers");
    TakenFromSegments(ref.region, p, "regions");
    TakenFromSegments(ref.tenant, r, "tenants");
    var again := ToCR(ref);
    FieldSettled(ref.provider, segs, "providers");
    StaysSettled(again.provider, ref.region, p, "regions", "providers");
    StaysSettled(again.provider, ref.tenant, r, "tenants", "providers");
    StaysSettled(again.provider, ref.workspace, t, "workspaces", "providers");
    FieldSettled(ref.region, p, "regions");
    StaysSettled(again.region, ref.tenant, r, "tenants", "regions");
    StaysSettled(again.region, ref.workspace, t, "workspaces", "regions");
    FieldSettled(ref.tenant, r, "tenants");
    StaysSettled(again.tenant, ref.workspace, t, "workspaces", "tenants");
    FieldSettled(ref.workspace, t, "workspaces");
    TakenOnce(again.provider, w, "providers");
    TakenOnce(again.region, w, "regions");
    TakenOnce(again.tenant, w, "tenants");
    TakenOnce(again.workspace, w, "workspaces");
    ToCROnSegments(again, w);
  }

  lemma LongPathHasSlash(segs: seq<string>)
    ensures |segs| > 1 ==> '/' in Join(segs)
  {
    if |segs| > 1 {
      assert (segs[0] + "/" + Join(segs[1..]))[|segs[0]|] == '/';
    }
  }

  lemma {:induction false} JoinIsInjective(a: seq<string>, b: seq<string>)
    requires Segments(a) && Segments(b) && Join(a) == Join(b)
    ensures a == b
  {
    if a == [] || b == [] {
      if a != [] {
        JoinNonEmpty(a);
      } else if b != [] {
        JoinNonEmpty(b);
      }
    } else {
      assert a[0] in a && b[0] in b;
      LongPathHasSlash(a);
      LongPathHasSlash(b);
      if |a| > 1 && |b| > 1 {
        assert Join(a) == a[0] + ("/" + Join(a[1..])) && Join(b) == b[0] + ("/" + Join(b[1..]));
        SameFirstSegment(a[0], b[0], Join(a[1..]), Join(b[1..]));
        assert (forall s :: s in a[1..] ==> s in a) && (forall s :: s in b[1..] ==> s in b);
        JoinIsInjective(a[1..], b[1..]);
        assert a == [a[0]] + a[1..] && b == [b[0]] + b[1..];
      }
    }
  }

  // ---------- the round trip ----------

  /** Nothing in the path is taken for a provider or a region that the reference does not give. */
  predicate NothingMistaken(ref: Reference, path: seq<string>) {
    && (ref.provider == "" ==> Find(path, "providers") < 0)
    && (ref.region == "" ==> Find(path, "regions") < 0)
  }

  /** Reading the embedded path by its first keys gives the scope, and leaves the resource. */
  predicate Recoverable(ref: Reference, segs: seq<string>) {
    var path := Embedded(segs, ref.tenant, ref.workspace);
    var rest := Others("", path, "tenants");
    && NothingMistaken(ref, path)
    && Value("", path, "tenants") == ref.tenant
    && Value("", rest, "workspaces") == ref.workspace
    && Others("", rest, "workspaces") == segs
  }

  lemma MistakenAreTaken(ref: Reference, path: seq<string>)
    requires Segments(path)
    ensures var p := Others(ref.provider, path, "providers");
            && (NothingMistaken(ref, path) <==>
                Value(ref.provider, path, "providers") == ref.provider && Value(ref.region, p, "regions") == ref.region)
            && (NothingMistaken(ref, path) ==> p == path && Others(ref.region, p, "regions") == path)
  {
    TakenFromSegments(ref.provider, path, "providers");
    TakenFromSegments(ref.region, path, "regions");
  }

  /**
    Storing, loading and storing again gives the same reference, if and only if the first keys of the
    embedded path are those of the scope. Segments and scope may be any names, keywords among them.
   */
  lemma RoundTripIff(ref: Reference, segs: seq<string>)
    requires PathOf(ref, segs)
    ensures ToCR(ReferenceFromCR(ref)) == ref <==> Recoverable(ref, segs)
  {
    hide ToCR, ReferenceFromCR, Join, Embedded, Others, Value, Segments, NothingMistaken, SlashFree;
    var path := Embedded(segs, ref.tenant, ref.workspace);
    FromCROnSegments(ref, segs);
    ToCROnSegments(ReferenceFromCR(ref), path);
    MistakenAreTaken(ref, path);
    var rest := Others("", path, "tenants");
    if NothingMistaken(ref, path) && Join(Others("", rest, "workspaces")) == Join(segs) {
      JoinIsInjective(Others("", rest, "workspaces"), segs);
    }
  }

  /** A path of fewer than two segments loses the scope, whatever it is. */
  lemma OneSegmentLosesScope(ref: Reference, segs: seq<string>)
    requires PathOf(ref, segs) && |segs| < 2
    ensures ToCR(ReferenceFromCR(ref)) == ref.(tenant := "", workspace := "")
  {
    FromCROnSegments(ref, segs);
    ToCROnSegments(ReferenceFromCR(ref), segs);
  }

  /** A keyword in the resource is taken for the scope: the reference comes back without its path. */
  lemma KeywordIsTakenForScope()
    ensures var ref := Reference("seca", "r", "t", "", "workspaces/w");
            && PathOf(ref, ["workspaces", "w"])
            && ToCR(ReferenceFromCR(ref)) == Reference("seca", "r", "t", "w", "")
  {
    hide ToCR, ReferenceFromCR, Join, Embedded, Others, Value;
    var ref, segs, path := Reference("seca", "r", "t", "", "workspaces/w"), ["workspaces", "w"],
        ["tenants", "t", "workspaces", "w"];
    PathOfKeyword(ref, segs);
    FromCROnSegments(ref, segs);
    ToCROnSegments(ReferenceFromCR(ref), path);
    KeywordReads(segs, path);
  }

  lemma PathOfKeyword(ref: Reference, segs: seq<string>)
    requires ref == Reference("seca", "r", "t", "", "workspaces/w") && segs == ["workspaces", "w"]
    ensures PathOf(ref, segs) && Embedded(segs, "t", "") == ["tenants", "t", "workspaces", "w"]
  {
    assert segs[1..] == ["w"] && Join(segs) == "workspaces/w";
    assert SlashFree("workspaces") && SlashFree("w");
    assert segs[..0] == [] && segs[0..] == segs;
  }

  lemma KeywordReads(segs: seq<string>, path: seq<string>)
    requires segs == ["workspaces", "w"] && path == ["tenants", "t", "workspaces", "w"]
    ensures Value("seca", path, "providers") == "seca" && Others("seca", path, "providers") == path
    ensures Value("r", path, "regions") == "r" && Others("r", path, "regions") == path
    ensures Value("", path, "tenants") == "t" && Others("", path, "tenants") == segs
    ensures Value("", segs, "workspaces") == "w" && Others("", segs, "workspaces") == [] && Join([]) == ""
  {
    assert path[2..] == segs && path[..0] + path[2..] == segs && segs[..0] + segs[2..] == [];
  }

  const KEYWORDS: set<string> := {"providers", "regions", "tenants", "workspaces"}

  /** A name that can stand in a path without being taken for something else. */
  predicate Plain(s: string) {
    SlashFree(s) && s !in KEYWORDS
  }

  /** A stored reference whose names are no keywords. */
  ghost predicate WellFormed(ref: Reference, segs: seq<string>) {
    && PathOf(ref, segs)
    && (forall s :: s in segs ==> Plain(s))
    && Plain(ref.tenant) && Plain(ref.workspace)
  }

  lemma {:induction false} FindAfter(front: seq<string>, key: string, back: seq<string>)
    requires key !in front && back != []
    ensures Find(front + ([key] + back), key) == |front|
  {
    if front == [] {
      assert front + ([key] + back) == [key] + back;
    } else {
      assert front[0] in front;
      assert (front + ([key] + back))[1..] == front[1..] + ([key] + back);
      FindAfter(front[1..], key, back);
    }
  }

  /** A part that was put in is found again and taken out; a missing one is not mistaken for another. */
  lemma PartIsFound(front: seq<string>, key: string, value: string, back: seq<string>)
    requires key !in front && back != [] && (value == "" ==> key !in back[..|back| - 1])
    ensures Value("", front + (Part(key, value) + back), key) == value
    ensures Others("", front + (Part(key, value) + back), key) == front + back
  {
    var segs := front + (Part(key, value) + back);
    if value == "" {
      assert segs == front + back && segs[..|segs| - 1] == front + back[..|back| - 1];
      AbsentIff(segs, key);
    } else {
      assert Part(key, value) + back == [key] + ([value] + back);
      FindAfter(front, key, [value] + back);
      assert segs[|front| + 1] == value && segs[..|front|] == front && segs[|front| + 2..] == back;
    }
  }

  /**
    Read off the names: no scope key stands in front of the last two segments, a missing part of the
    scope is not called by its key where the scope goes, and a missing provider or region is not called
    by its key anywhere but at the end. Whatever else the names are, they may be keys.
   */
  predicate KeysInPlace(ref: Reference, segs: seq<string>)
    requires |segs| >= 2
  {
    var front, next := segs[..|segs| - 2], segs[|segs| - 2];
    && "tenants" !in front && "workspaces" !in front
    && (ref.tenant == "" ==> next != "tenants" && ref.workspace != "tenants")
    && (ref.workspace == "" ==> next != "workspaces")
    && (ref.provider == "" ==> "providers" !in front + [ref.tenant, ref.workspace, next])
    && (ref.region == "" ==> "regions" !in front + [ref.tenant, ref.workspace, next])
  }

  lemma NotInPath(front: seq<string>, t: string, w: string, a: string, b: string, key: string)
    requires key !in front + [t, w, a] && key != "tenants" && key != "workspaces"
    ensures Find(front + (Scope(t, w) + [a, b]), key) < 0
  {
    var path := front + (Scope(t, w) + [a, b]);
    assert path[..|path| - 1] == front + (Scope(t, w) + [a]);
    assert forall s :: s in front ==> s in front + [t, w, a];
    assert t in front + [t, w, a] && w in front + [t, w, a] && a in front + [t, w, a];
    AbsentIff(path, key);
  }

  lemma KeysInPlaceAreRecovered(ref: Reference, segs: seq<string>)
    requires |segs| >= 2 && KeysInPlace(ref, segs)
    ensures Recoverable(ref, segs)
  {
    hide Value, Others, Find;
    var front, a, b := segs[..|segs| - 2], segs[|segs| - 2], segs[|segs| - 1];
    var t, w := ref.tenant, ref.workspace;
    SplitBeforeLastTwo(segs);
    assert segs[|segs| - 2..] == [a, b];
    var inner := Part("workspaces", w) + [a, b];
    assert Scope(t, w) + [a, b] == Part("tenants", t) + inner;
    assert inner[..|inner| - 1] == Part("workspaces", w) + [a] && [a, b][..1] == [a];
    PartIsFound(front, "tenants", t, inner);
    PartIsFound(front, "workspaces", w, [a, b]);
    if ref.provider == "" {
      NotInPath(front, t, w, a, b, "providers");
    }
    if ref.region == "" {
      NotInPath(front, t, w, a, b, "regions");
    }
  }

  /** With keys in place the reference comes back, keywords among its names or not. */
  lemma KeysInPlaceRoundTrip(ref: Reference, segs: seq<string>)
    requires PathOf(ref, segs) && |segs| >= 2 && KeysInPlace(ref, segs)
    ensures ToCR(ReferenceFromCR(ref)) == ref
  {
    hide ToCR, ReferenceFromCR, Recoverable, KeysInPlace;
    RoundTripIff(ref, segs);
    KeysInPlaceAreRecovered(ref, segs);
  }

  predicate Mentioned(key: string, segs: seq<string>) {
    segs != [] && key in segs[..|segs| - 1]
  }

  lemma TakenIff(segs: seq<string>, key: string)
    requires Segments(segs)
    ensures Find(segs, key) >= 0 <==> Mentioned(key, segs)
    ensures Mentioned(key, segs) ==> Value("", segs, key) != ""
    ensures !Mentioned(key, segs) ==> Value("", segs, key) == "" && Others("", segs, key) == segs
  {
    AbsentIff(segs, key);
    hide Segments;
    if Find(segs, key) >= 0 {
      FoundIsNotEmpty(segs, key);
    }
  }

  /** Without a scope: exactly if no key that is missing stands in the path before its end. */
  lemma UnscopedRoundTripIff(ref: Reference, segs: seq<string>)
    requires PathOf(ref, segs) && ref.tenant == "" && ref.workspace == ""
    ensures ToCR(ReferenceFromCR(ref)) == ref <==>
            && !Mentioned("tenants", segs) && !Mentioned("workspaces", segs)
            && (ref.provider == "" ==> !Mentioned("providers", segs))
            && (ref.region == "" ==> !Mentioned("regions", segs))
  {
    hide ToCR, ReferenceFromCR, Find, Value, Others, Segments, SlashFree, Join, Embedded, Mentioned;
    RoundTripIff(ref, segs);
    EmbeddedAreSegments(segs, "", "");
    TakenIff(segs, "providers");
    TakenIff(segs, "regions");
    TakenIff(segs, "tenants");
    TakenIff(segs, "workspaces");
  }

  lemma NoKeywords(segs: seq<string>)
    requires forall s :: s in segs ==> Plain(s)
    ensures "providers" !in segs && "regions" !in segs && "tenants" !in segs && "workspaces" !in segs
  {
    assert "providers" in KEYWORDS && "regions" in KEYWORDS && "tenants" in KEYWORDS && "workspaces" in KEYWORDS;
  }

  lemma PlainKeysAreInPlace(ref: Reference, segs: seq<string>)
    requires WellFormed(ref, segs) && |segs| >= 2
    ensures KeysInPlace(ref, segs)
  {
    var front, next := segs[..|segs| - 2], segs[|segs| - 2];
    assert next in segs && forall s :: s in front ==> s in segs;
    NoKeywords(front + [ref.tenant, ref.workspace, next]);
    assert ref.workspace in front + [ref.tenant, ref.workspace, next];
  }

  lemma PlainIsRecoverableIff(ref: Reference, segs: seq<string>)
    requires WellFormed(ref, segs)
    ensures Recoverable(ref, segs) <==> |segs| >= 2 || (ref.tenant == "" && ref.workspace == "")
  {
    if |segs| >= 2 {
      PlainKeysAreInPlace(ref, segs);
      KeysInPlaceAreRecovered(ref, segs);
    }
  }

  /** Without keywords: the round trip holds if and only if the path can take the scope, or there is none. */
  lemma PlainRoundTripIff(ref: Reference, segs: seq<string>)
    requires WellFormed(ref, segs)
    ensures ToCR(ReferenceFromCR(ref)) == ref <==> |segs| >= 2 || (ref.tenant == "" && ref.workspace == "")
  {
    hide ToCR, ReferenceFromCR, Recoverable;
    RoundTripIff(ref, segs);
    PlainIsRecoverableIff(ref, segs);
  }

  /** The keys found in the path are those of a scope right in front of its last two segments. */
  predicate ScopeInPlace(ref: Reference, path: seq<string>) {
    var rest := Others("", path, "tenants");
    && NothingMistaken(ref, path)
    && Embedded(Others("", rest, "workspaces"), Value("", path, "tenants"), Value("", rest, "workspaces")) == path
  }

  /** Loading undoes storing, if and only if the path keeps its scope where loading puts it. */
  lemma LoadUndoesStoreIff(ref: Reference, path: seq<string>)
    requires PathOf(ref, path) && ref.tenant == "" && ref.workspace == ""
    ensures ReferenceFromCR(ToCR(ref)) == ref <==> ScopeInPlace(ref, path)
  {
    hide ToCR, ReferenceFromCR, Join, Embedded, Others, Value, Segments, NothingMistaken, SlashFree;
    MistakenAreTaken(ref, path);
    ToCROnSegments(ref, path);
    ScopeIsSlashFree(ref, path);
    var p := Others(ref.provider, path, "providers");
    var r := Others(ref.region, p, "regions");
    var t := Others("", r, "tenants");
    var w := Others("", t, "workspaces");
    FromCROnSegments(ToCR(ref), w);
    var again := Embedded(w, Value("", r, "tenants"), Value("", t, "workspaces"));
    if NothingMistaken(ref, path) && Join(again) == Join(path) {
      JoinIsInjective(again, path);
    }
  }

  lemma ScopeIsSlashFree(ref: Reference, segs: seq<string>)
    requires Segments(segs)
    ensures var p := Others(ref.provider, segs, "providers");
            var r := Others(ref.region, p, "regions");
            var t := Others("", r, "tenants");
            SlashFree(Value("", r, "tenants")) && SlashFree(Value("", t, "workspaces"))
  {
    hide Others, Value, Segments;
    var p := Others(ref.provider, segs, "providers");
    var r := Others(ref.region, p, "regions");
    TakenFromSegments(ref.provider, segs, "providers");
    TakenFromSegments(ref.region, p, "regions");
    TakenFromSegments("", r, "tenants");
    TakenFromSegments("", Others("", r, "tenants"), "workspaces");
  }

  /** With keys in place, loading undoes storing for every reference out of the store, however short its path. */
  lemma LoadUndoesStore(ref: Reference, segs: seq<string>)
    requires PathOf(ref, segs) && (|segs| >= 2 ==> KeysInPlace(ref, segs))
    ensures ReferenceFromCR(ToCR(ReferenceFromCR(ref))) == ReferenceFromCR(ref)
  {
    hide ToCR, ReferenceFromCR;
    if |segs| >= 2 {
      KeysInPlaceRoundTrip(ref, segs);
    } else {
      OneSegmentLosesScope(ref, segs);
      FromCROnSegments(ref, segs);
      FromCROnSegments(ref.(tenant := "", workspace := ""), segs);
    }
  }

  // ---------- who refers to a resource ----------

  datatype Target = Target(tenant: string, workspace: string, name: string)

  function ParseReference(ref: Reference, defaultTenant: string): Target {
    var cr := ToCR(ref);
    var slash := LastSlash(cr.resource);
    Target(
      if cr.tenant == "" then defaultTenant else cr.tenant,
      cr.workspace,
      if slash >= 0 then cr.resource[slash + 1..] else cr.resource)
  }

  /** A stored reference means its tenant (or the default), its workspace and its last segment. */
  function Meaning(ref: Reference, segs: seq<string>, defaultTenant: string): Target {
    Target(
      if ref.tenant == "" then defaultTenant else ref.tenant,
      ref.workspace,
      if segs == [] then "" else segs[|segs| - 1])
  }

  /** Behind the last slash is the last segment. */
  lemma BehindLastSlash(segs: seq<string>)
    requires Segments(segs)
    ensures var path := Join(segs);
            var slash := LastSlash(path);
            (if slash >= 0 then path[slash + 1..] else path) == if segs == [] then "" else segs[|segs| - 1]
  {
    hide LastSlash;
    var n := |segs|;
    if n > 0 {
      assert segs[n - 1] in segs;
      if n == 1 {
        LastSlashOfOne(segs[0]);
      } else {
        assert segs == segs[..n - 1] + [segs[n - 1]];
        LastSlashOfJoin(segs[..n - 1], segs[n - 1]);
      }
    } else {
      LastSlashOfOne("");
    }
  }

  lemma ParseRecoversMeaning(ref: Reference, segs: seq<string>, defaultTenant: string)
    requires PathOf(ref, segs) && Recoverable(ref, segs)
    ensures ParseReference(ReferenceFromCR(ref), defaultTenant) == Meaning(ref, segs, defaultTenant)
  {
    hide ToCR, ReferenceFromCR, Recoverable, LastSlash, Join, Segments;
    RoundTripIff(ref, segs);
    BehindLastSlash(segs);
  }

  /** A listed resource: its name and the reference it holds, if any. */
  datatype Item = Item(name: string, ref: Option<Reference>)

  /** The reference of the item is the path of the given segments, and its scope can be read back from it. */
  ghost predicate ItemOk(i: Item, segs: seq<string>) {
    i.ref.Some? ==> PathOf(i.ref.value, segs) && Recoverable(i.ref.value, segs)
  }

  /** The names of the items whose reference means the target, in order. */
  ghost function ReferrersOf(items: seq<Item>, paths: seq<seq<string>>, target: Target,
                             defaultTenant: string): seq<string>
    requires |paths| == |items| && forall i :: 0 <= i < |items| ==> ItemOk(items[i], paths[i])
  {
    if items == [] then []
    else
      var last, segs := items[|items| - 1], paths[|items| - 1];
      assert ItemOk(last, segs);
      ReferrersOf(items[..|items| - 1], paths[..|items| - 1], target, defaultTenant)
      + if last.ref.Some? && Meaning(last.ref.value, segs, defaultTenant) == target then [last.name] else []
  }

  /** The names of the items whose reference parses to the target, in order. */
  function Matching(items: seq<Item>, target: Target, defaultTenant: string): seq<string> {
    if items == [] then []
    else
      var last := items[|items| - 1];
      Matching(items[..|items| - 1], target, defaultTenant)
      + if last.ref.Some? &&
          ParseReference(ReferenceFromCR(last.ref.value), defaultTenant) == target then [last.name] else []
  }

  method Referrers(items: seq<Item>, target: Target, defaultTenant: string) returns (names: seq<string>)
    ensures names == Matching(items, target, defaultTenant)
  {
    hide ParseReference, ReferenceFromCR;
    names := [];
    for n := 0 to |items|
      invariant names == Matching(items[..n], target, defaultTenant)
    {
      assert items[..n + 1][..n] == items[..n];
      var item := items[n];
      if item.ref.None? { continue; }
      var got := ParseReference(ReferenceFromCR(item.ref.value), defaultTenant);
      if got.tenant == target.tenant && got.workspace == target.workspace && got.name == target.name {
        names := names + [item.name];
      }
    }
    assert items[..|items|] == items;
  }

  /** On references that keep their scope, the items found are those that mean the target. */
  lemma {:induction false} ReferrersMeanTheTarget(items: seq<Item>, paths: seq<seq<string>>, target: Target,
                                                  defaultTenant: string)
    requires |paths| == |items| && forall i :: 0 <= i < |items| ==> ItemOk(items[i], paths[i])
    ensures Matching(items, target, defaultTenant) == ReferrersOf(items, paths, target, defaultTenant)
  {
    hide ParseReference, ReferenceFromCR;
    if items != [] {
      var last, segs := items[|items| - 1], paths[|items| - 1];
      ReferrersMeanTheTarget(items[..|items| - 1], paths[..|items| - 1], target, defaultTenant);
      assert ItemOk(last, segs);
      if last.ref.Some? {
        ParseRecoversMeaning(last.ref.value, segs, defaultTenant);
      }
    }
  }
}
