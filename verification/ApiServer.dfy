/**
  The Kubernetes API server as the components see it: named objects, each with a main half (spec,
  metadata, finalizers) and a status half, a deletion mark and a version that every committed
  change advances. One request is one atomic step.
 */
module ApiServer {
  import opened Prelude

  type Key = string

  datatype Object<M, S> = Object(
    uid: nat,
    main: M,
    finalizers: seq<string>,
    status: Option<S>,
    deleting: bool,
    version: nat)

  datatype Store<M, S> = Store(objects: map<Key, Object<M, S>>, revision: nat)

  datatype Request<M, S> =
    | Get(key: Key)
    | Create(key: Key, main: M, finalizers: seq<string>)
    | Put(key: Key, sent: Object<M, S>)
    | PutStatus(key: Key, sent: Object<M, S>)
    | Delete(key: Key, expected: Option<nat>)

  datatype Reply<M, S> =
    | Ok(found: Object<M, S>)
    | NotFound
    | AlreadyExists
    | Conflict
    | Invalid

  datatype Answer<M, S> = Answer(store: Store<M, S>, reply: Reply<M, S>)

  /**
    Every version handed out so far is at most the revision counter, and an object under deletion
    stays only as long as it has a finalizer.
   */
  ghost predicate Consistent<M(!new), S(!new)>(s: Store<M, S>) {
    forall k :: k in s.objects ==>
      && s.objects[k].version <= s.revision
      && (s.objects[k].deleting ==> s.objects[k].finalizers != [])
  }

  /** An object that is marked for deletion leaves the store with its last finalizer. */
  function Commit<M, S>(s: Store<M, S>, key: Key, o: Object<M, S>): Store<M, S> {
    var stamped := o.(version := s.revision + 1);
    if o.deleting && o.finalizers == [] then
      Store(s.objects - {key}, s.revision + 1)
    else
      Store(s.objects[key := stamped], s.revision + 1)
  }

  function Handle<M, S>(s: Store<M, S>, r: Request<M, S>): Answer<M, S> {
    match r
    case Get(key) =>
      Answer(s, if key in s.objects then Ok(s.objects[key]) else NotFound)
    case Create(key, main, finalizers) =>
      if key in s.objects then Answer(s, AlreadyExists)
      else
        var o := Object(s.revision + 1, main, finalizers, None, false, s.revision + 1);
        Answer(Commit(s, key, o), Ok(o))
    case Put(key, o) =>
      if key !in s.objects then Answer(s, NotFound)
      else
        var live := s.objects[key];
        if o.version != live.version then Answer(s, Conflict)
        else if live.deleting && exists f :: f in o.finalizers && f !in live.finalizers then Answer(s, Invalid)
        else
          var next := live.(main := o.main, finalizers := o.finalizers);
          Answer(Commit(s, key, next), Ok(next.(version := s.revision + 1)))
    case PutStatus(key, o) =>
      if key !in s.objects then Answer(s, NotFound)
      else
        var live := s.objects[key];
        if o.version != live.version then Answer(s, Conflict)
        else
          var next := live.(status := o.status);
          Answer(Commit(s, key, next), Ok(next.(version := s.revision + 1)))
    case Delete(key, expected) =>
      if key !in s.objects then Answer(s, NotFound)
      else
        var live := s.objects[key];
        if expected.Some? && expected.value != live.version then Answer(s, Conflict)
        else if live.deleting && live.finalizers != [] then Answer(s, Ok(live))
        else
          var next := live.(deleting := true);
          Answer(Commit(s, key, next), Ok(next.(version := s.revision + 1)))
  }

  /** What a reader may rely on later: versions only grow, and one identifies one content for good. */
  ghost predicate Snapshot<M, S>(s: Store<M, S>, key: Key, base: Object<M, S>) {
    && base.version <= s.revision
    && (key in s.objects ==> base.version <= s.objects[key].version)
    && (key in s.objects && s.objects[key].version == base.version ==> s.objects[key] == base)
  }

  /** Whatever request anybody makes, versions stay consistent and earlier snapshots stay valid. */
  lemma HandleKeepsSnapshots<M(!new), S(!new)>(s: Store<M, S>, r: Request<M, S>)
    requires Consistent(s)
    ensures Consistent(Handle(s, r).store)
    ensures s.revision <= Handle(s, r).store.revision
    ensures Handle(s, r).store == s || Handle(s, r).store.revision == s.revision + 1
    ensures forall key, base :: Snapshot(s, key, base) ==> Snapshot(Handle(s, r).store, key, base)
  {
  }

  /** A request changes the object it names and no other. */
  lemma HandleIsLocal<M, S>(s: Store<M, S>, r: Request<M, S>, other: Key)
    requires other != r.key
    ensures other in Handle(s, r).store.objects <==> other in s.objects
    ensures other in s.objects ==> Handle(s, r).store.objects[other] == s.objects[other]
  {
  }

  /** Who made a request: the call under study, or anybody else. */
  datatype Actor = Self | Other

  datatype Entry<M, S> = Entry(actor: Actor, request: Request<M, S>, before: Store<M, S>, after: Store<M, S>)

  /** One request was answered, by the rules of `Handle`. */
  ghost predicate Faithful<M, S>(e: Entry<M, S>) {
    e.after == Handle(e.before, e.request).store
  }

  function ObjectAt<M, S>(s: Store<M, S>, key: Key): Option<Object<M, S>> {
    if key in s.objects then Some(s.objects[key]) else None
  }

  /** Somebody else changed the object. */
  ghost predicate ForeignCommit<M, S>(e: Entry<M, S>, key: Key) {
    e.actor == Other && ObjectAt(e.before, key) != ObjectAt(e.after, key)
  }

  /** None of the caller's own requests changed the store, except possibly the one at `except`. */
  ghost predicate Silent<M, S>(log: seq<Entry<M, S>>, from: nat, except: int) {
    forall n :: from <= n < |log| && log[n].actor == Self && n != except ==> log[n].after == log[n].before
  }

  /** The log went on, and none of the caller's requests in the new part changed the store. */
  ghost predicate GoesOnSilently<M, S>(log: seq<Entry<M, S>>, longer: seq<Entry<M, S>>) {
    log <= longer && Silent(longer, |log|, -1)
  }

  /** Commits of others to the object, one after the other. */
  ghost predicate Overtaken<M, S>(log: seq<Entry<M, S>>, from: nat, key: Key, spoilers: seq<nat>) {
    && (forall i :: 0 <= i < |spoilers| ==>
          from <= spoilers[i] < |log| && ForeignCommit(log[spoilers[i]], key))
    && (forall i, j :: 0 <= i < j < |spoilers| ==> spoilers[i] < spoilers[j])
  }

  lemma NobodyYet<M, S>(log: seq<Entry<M, S>>, key: Key)
    ensures Overtaken(log, |log|, key, [])
  {
  }

  lemma OvertakenLasts<M, S>(log: seq<Entry<M, S>>, longer: seq<Entry<M, S>>, from: nat, key: Key, spoilers: seq<nat>)
    requires log <= longer && Overtaken(log, from, key, spoilers)
    ensures Overtaken(longer, from, key, spoilers)
    ensures forall n :: |log| <= n < |longer| && from <= n && ForeignCommit(longer[n], key) ==>
              Overtaken(longer, from, key, spoilers + [n])
  {
    hide ForeignCommit;
  }

  /** The last request was the caller's own, on this object, and this is the refusal the store gave it. */
  ghost predicate RefusedWith<M, S>(log: seq<Entry<M, S>>, from: nat, key: Key, r: Reply<M, S>) {
    && from < |log|
    && var last := log[|log| - 1];
       last.actor == Self && last.request.key == key && !r.Ok? && r == Handle(last.before, last.request).reply
  }

  /** What others do at the n-th point of a schedule. */
  function At<M, S>(schedule: seq<seq<Request<M, S>>>, n: nat): seq<Request<M, S>> {
    if n < |schedule| then schedule[n] else []
  }

  /** The store after these requests, in order. */
  function Served<M, S>(s: Store<M, S>, requests: seq<Request<M, S>>): Store<M, S> {
    if requests == [] then s
    else Handle(Served(s, requests[..|requests| - 1]), requests[|requests| - 1]).store
  }

  lemma ServedOne<M, S>(s: Store<M, S>, r: Request<M, S>)
    ensures Served(s, []) == s && Served(s, [r]) == Handle(s, r).store
  {
    hide Handle;
    assert [r][..0] == [];
  }

  /** The API server as a mutable object, with the log of all answered requests. */
  class Server<M(!new), S(!new)> {
    var store: Store<M, S>
    ghost var log: seq<Entry<M, S>>

    ghost predicate Valid()
      reads this
    {
      && Consistent(store)
      && (forall e :: e in log ==> Faithful(e))
    }

    method Serve(r: Request<M, S>, ghost actor: Actor) returns (reply: Reply<M, S>)
      requires Valid()
      modifies this
      ensures Valid()
      ensures Answer(store, reply) == Handle(old(store), r)
      ensures log == old(log) + [Entry(actor, r, old(store), store)]
    {
      HandleKeepsSnapshots(store, r);
      var answer := Handle(store, r);
      ghost var before := store;
      store := answer.store;
      log := log + [Entry(actor, r, before, store)];
      reply := answer.reply;
    }

    /** Other clients make the given requests, in order. */
    method Interfere(requests: seq<Request<M, S>>)
      requires Valid()
      modifies this
      ensures Valid()
      ensures old(log) <= log
      ensures store == Served(old(store), requests)
      ensures forall n :: |old(log)| <= n < |log| ==> log[n].actor == Other
      ensures forall key, base :: Snapshot(old(store), key, base) ==> Snapshot(store, key, base)
      ensures forall key :: ObjectAt(old(store), key) != ObjectAt(store, key) ==>
                exists n :: |old(log)| <= n < |log| && ForeignCommit(log[n], key)
    {
      for n := 0 to |requests|
        invariant Valid()
        invariant old(log) <= log && store == Served(old(store), requests[..n])
        invariant forall n :: |old(log)| <= n < |log| ==> log[n].actor == Other
        invariant forall key, base :: Snapshot(old(store), key, base) ==> Snapshot(store, key, base)
        invariant forall key :: ObjectAt(old(store), key) != ObjectAt(store, key) ==>
                    exists n :: |old(log)| <= n < |log| && ForeignCommit(log[n], key)
      {
        HandleKeepsSnapshots(store, requests[n]);
        ghost var before, known := store, log;
        var _ := Serve(requests[n], Other);
        assert forall n :: 0 <= n < |known| ==> log[n] == known[n];
        assert log[|known|].before == before && log[|known|].after == store;
        assert requests[..n + 1][..n] == requests[..n];
      }
      assert requests[..|requests|] == requests;
    }
  }
}
