/**
  Pruning a generated source file to the types it needs: the set of types reachable from the roots is
  computed with a worklist, and the declarations are then filtered in place.
 */
module IncludeSet {
  import opened Prelude

  // ---------- syntax ----------

  datatype Expr =
    | Ident(name: string)
    | Star(x: Expr)
    | Array(elt: Expr)
    | Map(key: Expr, value: Expr)
    | Struct(fields: seq<Expr>)
    | Selector(qualifier: string, sel: string)
    | Interface
    | Unknown

  datatype Spec =
    | TypeSpec(name: string, expr: Expr)
    | ValueSpec(names: seq<string>, annotation: Option<Expr>)
    | ImportSpec(path: string)

  datatype Tok = TYPE | CONST | VAR | IMPORT

  /** A declaration as a value; a function has no list of specs. */
  datatype DeclValue =
    | Gen(tok: Tok, specs: seq<Spec>)
    | Func(name: string)

  // ---------- references ----------

  /** The names in type positions, in the order of the walk. */
  function LocalTypeRefs(e: Expr): seq<string> {
    match e
    case Ident(name) => [name]
    case Star(x) => LocalTypeRefs(x)
    case Array(elt) => LocalTypeRefs(elt)
    case Map(key, value) => LocalTypeRefs(key) + LocalTypeRefs(value)
    case Struct(fields) => FieldRefs(fields)
    case _ => []
  }

  function FieldRefs(fields: seq<Expr>): seq<string> {
    if fields == [] then [] else LocalTypeRefs(fields[0]) + FieldRefs(fields[1..])
  }

  /** One type stands directly in another, in a type position: pointer, element, key, value or field. */
  predicate Inside(e: Expr, part: Expr) {
    || e == Star(part) || e == Array(part)
    || (e.Map? && (e.key == part || e.value == part))
    || (e.Struct? && part in e.fields)
  }

  ghost predicate Descent(path: seq<Expr>) {
    path != [] && forall i, j :: 0 <= i < j < |path| && j == i + 1 ==> Inside(path[i], path[j])
  }

  /** The name stands somewhere in the type, in a type position. */
  ghost predicate Mentions(e: Expr, name: string) {
    exists path :: Descent(path) && path[0] == e && path[|path| - 1] == Ident(name)
  }

  lemma DescendFurther(e: Expr, part: Expr, name: string)
    requires Inside(e, part) && Mentions(part, name)
    ensures Mentions(e, name)
  {
    var path :| Descent(path) && path[0] == part && path[|path| - 1] == Ident(name);
    var longer := [e] + path;
    forall i, j | 0 <= i < j < |longer| && j == i + 1
      ensures Inside(longer[i], longer[j])
    {
      if i > 0 {
        assert longer[i] == path[i - 1] && longer[j] == path[i];
      }
    }
    assert Descent(longer) && longer[0] == e && longer[|longer| - 1] == Ident(name);
  }

  lemma MentionedBelow(e: Expr, name: string)
    requires Mentions(e, name)
    ensures e == Ident(name) || exists part :: Inside(e, part) && Mentions(part, name)
  {
    var path :| Descent(path) && path[0] == e && path[|path| - 1] == Ident(name);
    if |path| > 1 {
      var rest := path[1..];
      forall i, j | 0 <= i < j < |rest| && j == i + 1
        ensures Inside(rest[i], rest[j])
      {
        assert rest[i] == path[j] && rest[j] == path[j + 1];
      }
      assert Descent(rest) && rest[0] == path[1] && rest[|rest| - 1] == Ident(name);
      assert Inside(path[0], path[1]);
    }
  }

  /** The walk finds exactly the names that stand in type positions. */
  lemma {:induction false} RefsAreMentions(e: Expr, name: string)
    ensures name in LocalTypeRefs(e) <==> Mentions(e, name)
    decreases e, 0
  {
    hide Mentions;
    if Mentions(e, name) {
      MentionedBelow(e, name);
    }
    match e
    case Ident(own) =>
      if own == name {
        MentionsItself(name);
      }
    case Star(x) => BelowIff(e, x, name);
    case Array(elt) => BelowIff(e, elt, name);
    case Map(key, value) =>
      BelowIff(e, key, name);
      BelowIff(e, value, name);
    case Struct(fields) =>
      FieldsAreMentions(fields, name);
      forall part | part in fields && Mentions(part, name)
        ensures Mentions(e, name)
      {
        DescendFurther(e, part, name);
      }
    case _ =>
  }

  lemma MentionsItself(name: string)
    ensures Mentions(Ident(name), name)
  {
    assert Descent([Ident(name)]);
  }

  lemma BelowIff(e: Expr, part: Expr, name: string)
    requires Inside(e, part) && part < e
    ensures name in LocalTypeRefs(part) <==> Mentions(part, name)
    ensures Mentions(part, name) ==> Mentions(e, name)
    decreases part, 1
  {
    hide Mentions, Inside;
    RefsAreMentions(part, name);
    if Mentions(part, name) {
      DescendFurther(e, part, name);
    }
  }

  lemma {:induction false} FieldsAreMentions(fields: seq<Expr>, name: string)
    ensures name in FieldRefs(fields) <==> exists part :: part in fields && Mentions(part, name)
    decreases fields
  {
    hide Mentions;
    if fields != [] {
      RefsAreMentions(fields[0], name);
      FieldsAreMentions(fields[1..], name);
      assert fields == [fields[0]] + fields[1..];
    }
  }

  type Index = map<string, Expr>

  /** Later definitions of a name replace earlier ones. */
  function IndexSpecs(index: Index, specs: seq<Spec>): Index {
    if specs == [] then index
    else
      var before, last := IndexSpecs(index, specs[..|specs| - 1]), specs[|specs| - 1];
      if last.TypeSpec? then before[last.name := last.expr] else before
  }

  function IndexOfFile(decls: seq<DeclValue>): Index {
    if decls == [] then map[]
    else
      var before, last := IndexOfFile(decls[..|decls| - 1]), decls[|decls| - 1];
      if last.Gen? then IndexSpecs(before, last.specs) else before
  }

  /** One type leads to another: it mentions it, and the other is defined here and not shared. */
  ghost predicate Edge(index: Index, shared: set<string>, a: string, b: string) {
    a in index && b in index && b !in shared && Mentions(index[a], b)
  }

  /** A walk from a root. */
  ghost predicate Walk(index: Index, shared: set<string>, roots: set<string>, path: seq<string>) {
    && path != [] && path[0] in roots
    && forall i :: 0 <= i < |path| - 1 ==> Edge(index, shared, path[i], path[i + 1])
  }

  ghost predicate Reachable(index: Index, shared: set<string>, roots: set<string>, name: string) {
    exists path :: Walk(index, shared, roots, path) && path[|path| - 1] == name
  }

  lemma RootsAreReachable(index: Index, shared: set<string>, roots: set<string>, name: string)
    requires name in roots
    ensures Reachable(index, shared, roots, name)
  {
    assert Walk(index, shared, roots, [name]);
  }

  lemma OneStepFurther(index: Index, shared: set<string>, roots: set<string>, a: string, b: string)
    requires Reachable(index, shared, roots, a) && Edge(index, shared, a, b)
    ensures Reachable(index, shared, roots, b)
  {
    var path :| Walk(index, shared, roots, path) && path[|path| - 1] == a;
    var longer := path + [b];
    forall i | 0 <= i < |longer| - 1
      ensures Edge(index, shared, longer[i], longer[i + 1])
    {
      if i < |path| - 1 {
        assert longer[i] == path[i] && longer[i + 1] == path[i + 1];
      }
    }
    assert Walk(index, shared, roots, longer) && longer[|longer| - 1] == b;
  }

  ghost predicate Closed(index: Index, shared: set<string>, names: set<string>) {
    forall a, b :: a in names && Edge(index, shared, a, b) ==> b in names
  }

  /** A closed set that has the roots has everything a walk can reach. */
  lemma {:induction false} WalkStaysInside(index: Index, shared: set<string>, roots: set<string>, names: set<string>,
                                           path: seq<string>)
    requires Closed(index, shared, names) && roots <= names && Walk(index, shared, roots, path)
    ensures path[|path| - 1] in names
    decreases |path|
  {
    if |path| > 1 {
      var front := path[..|path| - 1];
      forall i | 0 <= i < |front| - 1
        ensures Edge(index, shared, front[i], front[i + 1])
      {
        assert front[i] == path[i] && front[i + 1] == path[i + 1];
      }
      WalkStaysInside(index, shared, roots, names, front);
      assert Edge(index, shared, path[|path| - 2], path[|path| - 2 + 1]);
    }
  }

  /** The result is determined: it is the least closed set that has the roots. */
  lemma ReachableIsLeast(index: Index, shared: set<string>, roots: set<string>, included: set<string>,
                         other: set<string>)
    requires forall name :: name in included <==> Reachable(index, shared, roots, name)
    requires Closed(index, shared, other) && roots <= other
    ensures Closed(index, shared, included) && roots <= included && included <= other
  {
    forall name | name in roots
      ensures name in included
    {
      RootsAreReachable(index, shared, roots, name);
    }
    forall a, b | a in included && Edge(index, shared, a, b)
      ensures b in included
    {
      OneStepFurther(index, shared, roots, a, b);
    }
    forall name | name in included
      ensures name in other
    {
      var path :| Walk(index, shared, roots, path) && path[|path| - 1] == name;
      WalkStaysInside(index, shared, roots, other, path);
    }
  }

  // ---------- the worklist ----------

  method BuildIndex(decls: seq<DeclValue>) returns (index: Index)
    ensures index == IndexOfFile(decls)
  {
    index := map[];
    for i := 0 to |decls|
      invariant index == IndexOfFile(decls[..i])
    {
      assert decls[..i + 1][..i] == decls[..i];
      if decls[i].Gen? {
        ghost var before := index;
        var specs := decls[i].specs;
        for j := 0 to |specs|
          invariant index == IndexSpecs(before, specs[..j])
        {
          assert specs[..j + 1][..j] == specs[..j];
          if specs[j].TypeSpec? {
            index := index[specs[j].name := specs[j].expr];
          }
        }
        assert specs[..|specs|] == specs;
      }
    }
    assert decls[..|decls|] == decls;
  }

  /** Every type included so far was reached, and what is not yet in the queue has been followed up. */
  ghost predicate Progress(index: Index, shared: set<string>, roots: set<string>, included: set<string>,
                           queue: seq<string>) {
    && roots <= included && included <= roots + index.Keys
    && (forall name :: name in included ==> Reachable(index, shared, roots, name))
    && (forall name :: name in queue ==> name in included)
    && (forall a, b :: a in included && a !in queue && Edge(index, shared, a, b) ==> b in included)
  }

  /** The roots are taken from a map, in no particular order. */
  method ComputeIncludeSet(decls: seq<DeclValue>, roots: set<string>, shared: set<string>)
    returns (included: set<string>)
    ensures forall name :: name in included <==> Reachable(IndexOfFile(decls), shared, roots, name)
  {
    hide Progress, Reachable;
    var index := BuildIndex(decls);
    var queue;
    included, queue := QueueRoots(roots);
    OnlyRoots(index, shared, roots, queue);
    while |queue| > 0
      invariant Progress(index, shared, roots, included, queue)
      decreases |roots + index.Keys - included|, |queue|
    {
      included, queue := Follow(index, shared, roots, included, queue);
    }
    ReachedExactly(index, shared, roots, included);
  }

  /** Every root is included and queued. */
  method QueueRoots(roots: set<string>) returns (included: set<string>, queue: seq<string>)
    ensures included == roots
    ensures forall name :: name in roots <==> name in queue
  {
    included, queue := {}, [];
    var todo := roots;
    while todo != {}
      invariant todo <= roots && included == roots - todo
      invariant forall name :: name in included <==> name in queue
      decreases |todo|
    {
      var name :| name in todo;
      todo := todo - {name};
      if name !in included {
        included, queue := included + {name}, queue + [name];
      }
    }
  }

  lemma OnlyRoots(index: Index, shared: set<string>, roots: set<string>, queue: seq<string>)
    requires forall name :: name in roots <==> name in queue
    ensures Progress(index, shared, roots, roots, queue)
  {
    hide Reachable;
    forall name | name in roots
      ensures Reachable(index, shared, roots, name)
    {
      RootsAreReachable(index, shared, roots, name);
    }
  }

  lemma ReachedExactly(index: Index, shared: set<string>, roots: set<string>, included: set<string>)
    requires Progress(index, shared, roots, included, [])
    ensures forall name :: name in included <==> Reachable(index, shared, roots, name)
  {
    forall name | Reachable(index, shared, roots, name)
      ensures name in included
    {
      var path :| Walk(index, shared, roots, path) && path[|path| - 1] == name;
      WalkStaysInside(index, shared, roots, included, path);
    }
  }

  /** What a type leads to. */
  function Targets(index: Index, shared: set<string>, a: string): set<string> {
    if a in index then set b | b in LocalTypeRefs(index[a]) && b in index && b !in shared else {}
  }

  lemma TargetsAreEdges(index: Index, shared: set<string>, a: string)
    ensures forall b :: b in Targets(index, shared, a) <==> Edge(index, shared, a, b)
  {
    hide Mentions;
    if a in index {
      forall b
        ensures b in LocalTypeRefs(index[a]) <==> Mentions(index[a], b)
      {
        RefsAreMentions(index[a], b);
      }
    }
  }

  /** The inner loop: new references are included and queued. */
  method AddRefs(index: Index, shared: set<string>, refs: seq<string>, included: set<string>, queue: seq<string>)
    returns (more: set<string>, rest: seq<string>)
    ensures more == included + set b | b in refs && b in index && b !in shared
    ensures forall name :: name in rest <==> name in queue || (name in more && name !in included)
    ensures more == included ==> rest == queue
  {
    more, rest := included, queue;
    for i := 0 to |refs|
      invariant more == included + set b | b in refs[..i] && b in index && b !in shared
      invariant forall name :: name in rest <==> name in queue || (name in more && name !in included)
      invariant more == included ==> rest == queue
    {
      var ref := refs[i];
      assert refs[..i + 1] == refs[..i] + [ref];
      if ref in shared || ref in more {
        continue;
      }
      if ref in index {
        more, rest := more + {ref}, rest + [ref];
      }
    }
    assert refs[..|refs|] == refs;
  }

  /** Takes one type from the queue and adds what it leads to. */
  method Follow(index: Index, shared: set<string>, ghost roots: set<string>, included: set<string>, queue: seq<string>)
    returns (more: set<string>, rest: seq<string>)
    requires queue != [] && Progress(index, shared, roots, included, queue)
    ensures Progress(index, shared, roots, more, rest)
    ensures more == included ==> |rest| < |queue|
    ensures more != included ==> |roots + index.Keys - more| < |roots + index.Keys - included|
  {
    hide Progress, Reachable, LocalTypeRefs;
    var current := queue[0];
    more, rest := included, queue[1..];
    if current in index {
      more, rest := AddRefs(index, shared, LocalTypeRefs(index[current]), included, queue[1..]);
    }
    assert more == included + Targets(index, shared, current);
    FollowedUp(index, shared, roots, included, queue, more, rest);
    Smaller(roots + index.Keys, included, more);
  }

  lemma FollowedUp(index: Index, shared: set<string>, roots: set<string>, included: set<string>, queue: seq<string>,
                   more: set<string>, rest: seq<string>)
    requires queue != [] && Progress(index, shared, roots, included, queue)
    requires more == included + Targets(index, shared, queue[0])
    requires forall name :: name in rest <==> name in queue[1..] || (name in more && name !in included)
    ensures Progress(index, shared, roots, more, rest)
    ensures included <= more <= roots + index.Keys
  {
    var current := queue[0];
    TargetsAreEdges(index, shared, current);
    hide Edge, Targets, Reachable;
    assert queue == [current] + queue[1..];
    forall b | b in Targets(index, shared, current)
      ensures b in index && Reachable(index, shared, roots, b)
    {
      assert current in queue;
      EdgeLeadsToDefined(index, shared, current, b);
      OneStepFurther(index, shared, roots, current, b);
    }
    forall a, b | a in more && a !in rest && Edge(index, shared, a, b)
      ensures b in more
    {
    }
  }

  lemma EdgeLeadsToDefined(index: Index, shared: set<string>, a: string, b: string)
    requires Edge(index, shared, a, b)
    ensures b in index
  {
  }

  lemma Smaller(all: set<string>, small: set<string>, large: set<string>)
    requires small <= large <= all
    ensures large != small ==> |all - large| < |all - small|
  {
    if large != small {
      var x :| x in large && x !in small;
      assert all - large <= all - small - {x};
      SubsetSize(all - large, all - small - {x});
    }
  }

  // ---------- pruning ----------

  predicate KeepsSpec(tok: Tok, s: Spec, names: set<string>) {
    match tok
    case TYPE => s.TypeSpec? && s.name in names
    case CONST => s.ValueSpec? && s.annotation.Some? && s.annotation.value.Ident? && s.annotation.value.name in names
    case _ => true
  }

  function KeptSpecs(tok: Tok, specs: seq<Spec>, names: set<string>): (kept: seq<Spec>)
    ensures forall s :: s in kept <==> s in specs && KeepsSpec(tok, s, names)
  {
    if specs == [] then []
    else
      var before, last := KeptSpecs(tok, specs[..|specs| - 1], names), specs[|specs| - 1];
      assert specs == specs[..|specs| - 1] + [last];
      if KeepsSpec(tok, last, names) then before + [last] else before
  }

  predicate Pruned(tok: Tok) {
    tok == TYPE || tok == CONST
  }

  /** What is left of a declaration; an emptied one goes. */
  function KeptDecl(d: DeclValue, names: set<string>): Option<DeclValue> {
    if d.Gen? && Pruned(d.tok) then
      var specs := KeptSpecs(d.tok, d.specs, names);
      if specs == [] then None else Some(Gen(d.tok, specs))
    else Some(d)
  }

  function KeptDecls(decls: seq<DeclValue>, names: set<string>): seq<DeclValue> {
    if decls == [] then []
    else
      var before, last := KeptDecls(decls[..|decls| - 1], names), KeptDecl(decls[|decls| - 1], names);
      if last.Some? then before + [last.value] else before
  }

  /** A declaration node; `specs[..live]` is its list of specs. */
  class Decl {
    const tok: Option<Tok>
    const name: string
    const specs: array<Spec>
    var live: nat

    constructor (tok: Option<Tok>, name: string, specs: array<Spec>)
      ensures this.tok == tok && this.name == name && this.specs == specs && live == specs.Length
    {
      this.tok, this.name, this.specs, live := tok, name, specs, specs.Length;
    }

    ghost predicate Is(d: DeclValue)
      reads this, specs
    {
      && live <= specs.Length
      && if tok.None? then d == Func(name) else d == Gen(tok.value, specs[..live])
    }

    /** The kept specs move to the front of the same array. */
    method KeepSpecs(names: set<string>)
      requires live <= specs.Length && tok.Some? && Pruned(tok.value)
      modifies this`live, specs
      ensures live <= specs.Length && specs[..live] == KeptSpecs(tok.value, old(specs[..live]), names)
    {
      live := CompactSpecs(specs, live, tok.value, names);
    }

    /** Prunes the declaration; it stays unless nothing is left of it. */
    method Prune(names: set<string>, ghost d: DeclValue) returns (stays: bool)
      requires Is(d)
      modifies this`live, specs
      ensures stays == KeptDecl(d, names).Some?
      ensures stays ==> Is(KeptDecl(d, names).value)
    {
      if tok.Some? && Pruned(tok.value) {
        KeepSpecs(names);
        return live > 0;
      }
      return true;
    }
  }

  method CompactSpecs(specs: array<Spec>, live: nat, tok: Tok, names: set<string>) returns (kept: nat)
    requires live <= specs.Length
    modifies specs
    ensures kept <= live && specs[..kept] == KeptSpecs(tok, old(specs[..live]), names)
  {
    hide KeptSpecs, KeepsSpec;
    kept := 0;
    ghost var was, done := specs[..live], [];
    assert was[..0] == [];
    NothingKept(tok, names);
    for i := 0 to live
      invariant kept <= i && |done| == kept
      invariant done == KeptSpecs(tok, was[..i], names)
      invariant forall j :: i <= j < live ==> specs[j] == was[j]
      invariant forall j :: 0 <= j < kept ==> specs[j] == done[j]
    {
      var spec := specs[i];
      OneMoreSpec(tok, was, i, names);
      if KeepsSpec(tok, spec, names) {
        specs[kept] := spec;
        kept, done := kept + 1, done + [spec];
      }
    }
    assert was[..live] == was && specs[..kept] == done;
  }

  lemma NothingKept(tok: Tok, names: set<string>)
    ensures KeptSpecs(tok, [], names) == [] && KeptDecls([], names) == []
  {
  }

  lemma OneMoreSpec(tok: Tok, specs: seq<Spec>, i: nat, names: set<string>)
    requires i < |specs|
    ensures KeptSpecs(tok, specs[..i + 1], names)
         == KeptSpecs(tok, specs[..i], names) + if KeepsSpec(tok, specs[i], names) then [specs[i]] else []
  {
    assert specs[..i + 1][..i] == specs[..i];
  }

  lemma OneMoreDecl(decls: seq<DeclValue>, i: nat, names: set<string>)
    requires i < |decls|
    ensures KeptDecls(decls[..i + 1], names)
         == KeptDecls(decls[..i], names) + if KeptDecl(decls[i], names).Some?
             then [KeptDecl(decls[i], names).value] else []
  {
    assert decls[..i + 1][..i] == decls[..i];
  }

  /** No two nodes share anything. */
  ghost predicate Separate(nodes: seq<Decl>) {
    forall i, j :: 0 <= i < |nodes| && 0 <= j < |nodes| && i != j ==>
        nodes[i] != nodes[j] && nodes[i].specs != nodes[j].specs
  }

  /** Which nodes stay, by position. */
  ghost predicate Ascending(from: seq<nat>, bound: nat) {
    && (forall j :: 0 <= j < |from| ==> from[j] < bound)
    && (forall j, k :: 0 <= j < k < |from| ==> from[j] < from[k])
  }

  /** The survivors move to the front of the array of declarations, in their order. */
  method FilterFileDecls(decls: array<Decl>, names: set<string>, ghost before: seq<DeclValue>)
    returns (n: nat, ghost from: seq<nat>)
    requires Separate(decls[..]) && |before| == decls.Length
    requires forall i :: 0 <= i < decls.Length ==> decls[i].Is(before[i])
    modifies decls, set d | d in decls[..] :: d, set d | d in decls[..] :: d.specs
    ensures n <= decls.Length && n == |KeptDecls(before, names)| == |from|
    ensures Ascending(from, |before|)
    ensures forall i :: 0 <= i < n ==> decls[i] == old(decls[..])[from[i]] && decls[i].Is(KeptDecls(before, names)[i])
  {
    hide KeptDecls, KeptDecl, KeptSpecs, Decl.Is;
    n, from := 0, [];
    ghost var nodes := decls[..];
    NothingKept(TYPE, names);
    assert before[..0] == [];
    for i := 0 to decls.Length
      invariant n <= i && n == |KeptDecls(before[..i], names)| == |from|
      invariant Ascending(from, i)
      invariant forall j :: i <= j < decls.Length ==> decls[j] == nodes[j]
      invariant forall j :: i <= j < decls.Length ==> nodes[j].Is(before[j])
      invariant forall j :: 0 <= j < n ==> decls[j] == nodes[from[j]] && decls[j].Is(KeptDecls(before[..i], names)[j])
    {
      var decl := decls[i];
      assert decl == nodes[i] && nodes[i] in nodes;
      OneMoreDecl(before, i, names);
      var stays := decl.Prune(names, before[i]);
      if stays {
        decls[n] := decl;
        n, from := n + 1, from + [i];
      }
    }
    assert before[..decls.Length] == before;
  }

  // ---------- what is left of the file ----------

  ghost predicate DefinedIn(decls: seq<DeclValue>, s: Spec) {
    exists i :: 0 <= i < |decls| && decls[i].Gen? && s in decls[i].specs
  }

  ghost predicate Passes(decls: seq<DeclValue>, names: set<string>, s: Spec) {
    exists i :: 0 <= i < |decls| && decls[i].Gen? && s in decls[i].specs && KeepsSpec(decls[i].tok, s, names)
  }

  /** A spec is in the pruned file exactly if it was in the file and passes the filter of its declaration. */
  lemma {:induction false} KeptExactly(decls: seq<DeclValue>, names: set<string>, s: Spec)
    ensures DefinedIn(KeptDecls(decls, names), s) <==> Passes(decls, names, s)
  {
    if decls != [] {
      var front, last := decls[..|decls| - 1], decls[|decls| - 1];
      KeptExactly(front, names, s);
      OneMoreDecl(decls, |front|, names);
      assert decls[..|front| + 1] == decls;
      var kept := KeptDecl(last, names);
      DefinedInEither(KeptDecls(front, names), if kept.Some? then [kept.value] else [], s);
      PassesEither(front, last, names, s);
      assert front + [last] == decls;
      KeptSpecsOfOne(last, names, s);
    }
  }

  lemma KeptSpecsOfOne(d: DeclValue, names: set<string>, s: Spec)
    ensures var kept := KeptDecl(d, names);
            DefinedIn(if kept.Some? then [kept.value] else [], s) <==>
                d.Gen? && s in d.specs && KeepsSpec(d.tok, s, names)
  {
    var kept := KeptDecl(d, names);
    if d.Gen? && s in d.specs && KeepsSpec(d.tok, s, names) {
      assert Pruned(d.tok) ==> s in KeptSpecs(d.tok, d.specs, names);
      assert kept.Some?;
      assert [kept.value][0].Gen? && s in [kept.value][0].specs;
    }
  }

  lemma DefinedInEither(a: seq<DeclValue>, b: seq<DeclValue>, s: Spec)
    ensures DefinedIn(a + b, s) <==> DefinedIn(a, s) || DefinedIn(b, s)
  {
    if DefinedIn(a, s) {
      var i :| 0 <= i < |a| && a[i].Gen? && s in a[i].specs;
      assert (a + b)[i] == a[i];
    }
    if DefinedIn(b, s) {
      var i :| 0 <= i < |b| && b[i].Gen? && s in b[i].specs;
      assert (a + b)[|a| + i] == b[i];
    }
  }

  lemma PassesEither(front: seq<DeclValue>, last: DeclValue, names: set<string>, s: Spec)
    ensures Passes(front + [last], names, s) <==>
            Passes(front, names, s) || (last.Gen? && s in last.specs && KeepsSpec(last.tok, s, names))
  {
    var all := front + [last];
    if Passes(front, names, s) {
      var i :| 0 <= i < |front| && front[i].Gen? && s in front[i].specs && KeepsSpec(front[i].tok, s, names);
      assert all[i] == front[i];
    }
    assert all[|front|] == last;
  }

  lemma {:induction false} IndexedSpecs(before: Index, specs: seq<Spec>, name: string)
    ensures var index := IndexSpecs(before, specs);
            && (name in index ==>
                (name in before && index[name] == before[name]) || TypeSpec(name, index[name]) in specs)
            && (name in before ==> name in index)
            && (forall s :: s in specs && s.TypeSpec? ==> s.name in index)
  {
    if specs != [] {
      IndexedSpecs(before, specs[..|specs| - 1], name);
      assert specs == specs[..|specs| - 1] + [specs[|specs| - 1]];
    }
  }

  /** The index has what the file defines. */
  lemma {:induction false} IndexMatchesFile(decls: seq<DeclValue>)
    ensures forall name :: name in IndexOfFile(decls) ==> DefinedIn(decls, TypeSpec(name, IndexOfFile(decls)[name]))
    ensures forall s: Spec :: s.TypeSpec? && DefinedIn(decls, s) ==> s.name in IndexOfFile(decls)
  {
    if decls != [] {
      var front, last := decls[..|decls| - 1], decls[|decls| - 1];
      var before, index := IndexOfFile(front), IndexOfFile(decls);
      IndexMatchesFile(front);
      assert decls == front + [last];
      forall name | name in index
        ensures DefinedIn(decls, TypeSpec(name, index[name]))
      {
        DefinedInEither(front, [last], TypeSpec(name, index[name]));
        if last.Gen? {
          IndexedSpecs(before, last.specs, name);
          assert [last][0] == last;
        }
      }
      forall s: Spec | s.TypeSpec? && DefinedIn(decls, s)
        ensures s.name in index
      {
        DefinedInEither(front, [last], s);
        if last.Gen? {
          IndexedSpecs(before, last.specs, s.name);
        }
      }
    }
  }

  /** Types are declared in type declarations, each name once. */
  ghost predicate WellFormed(decls: seq<DeclValue>) {
    && (forall i, s :: 0 <= i < |decls| && decls[i].Gen? && s in decls[i].specs && s.TypeSpec? ==> decls[i].tok == TYPE)
    && (forall s, t :: DefinedIn(decls, s) && DefinedIn(decls, t) && s.TypeSpec? && t.TypeSpec? && s.name == t.name ==>
        s == t)
  }

  /**
    The pruned file lacks nothing it refers to: a name found in a kept type is shared, or kept too, or
    was never defined in the file. What is kept is a root or reached from one.
   */
  lemma PrunedFileIsClosed(decls: seq<DeclValue>, roots: set<string>, shared: set<string>, included: set<string>,
                           s: Spec)
    requires WellFormed(decls)
    requires forall name :: name in included <==> Reachable(IndexOfFile(decls), shared, roots, name)
    requires s.TypeSpec? && DefinedIn(KeptDecls(decls, included), s)
    ensures Reachable(IndexOfFile(decls), shared, roots, s.name)
    ensures forall ref :: Mentions(s.expr, ref) ==>
              || ref in shared || ref !in IndexOfFile(decls)
              || DefinedIn(KeptDecls(decls, included), TypeSpec(ref, IndexOfFile(decls)[ref]))
  {
    var index := IndexOfFile(decls);
    KeptExactly(decls, included, s);
    IndexMatchesFile(decls);
    assert DefinedIn(decls, s) && s.name in included && index[s.name] == s.expr;
    forall ref | Mentions(s.expr, ref) && ref !in shared && ref in index
      ensures DefinedIn(KeptDecls(decls, included), TypeSpec(ref, index[ref]))
    {
      assert Edge(index, shared, s.name, ref);
      OneStepFurther(index, shared, roots, s.name, ref);
      KeptExactly(decls, included, TypeSpec(ref, index[ref]));
      PassesByName(decls, included, TypeSpec(ref, index[ref]));
    }
  }

  /** The spec is in the file, and only in declarations of this kind. */
  ghost predicate OnlyIn(decls: seq<DeclValue>, tok: Tok, s: Spec) {
    && DefinedIn(decls, s)
    && forall i :: 0 <= i < |decls| && decls[i].Gen? && s in decls[i].specs ==> decls[i].tok == tok
  }

  /**
    What stays, kind by kind: a type exactly if it is reached, a constant exactly if its type is written
    down as a bare name that is reached, and everything else.
   */
  lemma StaysIff(decls: seq<DeclValue>, roots: set<string>, shared: set<string>, included: set<string>, tok: Tok,
                 s: Spec)
    requires forall name :: name in included <==> Reachable(IndexOfFile(decls), shared, roots, name)
    requires OnlyIn(decls, tok, s)
    ensures var stays, index := DefinedIn(KeptDecls(decls, included), s), IndexOfFile(decls);
            match tok
            case TYPE => stays <==> s.TypeSpec? && Reachable(index, shared, roots, s.name)
            case CONST =>
              stays <==>
              && s.ValueSpec? && s.annotation.Some? && s.annotation.value.Ident?
              && Reachable(index, shared, roots, s.annotation.value.name)
            case _ => stays
  {
    hide Reachable;
    KeptExactly(decls, included, s);
    var i :| 0 <= i < |decls| && decls[i].Gen? && s in decls[i].specs;
    assert KeepsSpec(tok, s, included) <==> Passes(decls, included, s);
  }

  /** Functions stay. */
  lemma {:induction false} FunctionsStay(decls: seq<DeclValue>, names: set<string>, name: string)
    ensures Func(name) in KeptDecls(decls, names) <==> Func(name) in decls
  {
    if decls != [] {
      FunctionsStay(decls[..|decls| - 1], names, name);
      assert decls == decls[..|decls| - 1] + [decls[|decls| - 1]];
    }
  }

  lemma PassesByName(decls: seq<DeclValue>, names: set<string>, s: Spec)
    requires WellFormed(decls) && DefinedIn(decls, s) && s.TypeSpec? && s.name in names
    ensures Passes(decls, names, s)
  {
    var i :| 0 <= i < |decls| && decls[i].Gen? && s in decls[i].specs;
    assert KeepsSpec(decls[i].tok, s, names);
  }
}
