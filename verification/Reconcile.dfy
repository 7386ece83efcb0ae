/**
  The generic controller's finalizer protocol. A pass reads the object, puts the cleanup finalizer on
  it, hands it to the plugin, reads it again and takes the finalizer off once deletion is complete.
  Other clients make arbitrary requests in between; the protection is lost only if one of those takes
  the finalizer off.
 */
module Reconcile {
  import opened Prelude
  import opened ApiServer
  import opened Conditions

  type Tree = string
  type Obj = Object<Tree, StatusValue>
  type Db = Store<Tree, StatusValue>
  type Req = Request<Tree, StatusValue>

  const FINALIZER := "secapi.cloud.foundation/cleanup"

  predicate EqualFold(a: string, b: string) {
    |a| == |b| && forall i :: 0 <= i < |a| ==> LowerChar(a[i]) == LowerChar(b[i])
  }

  /** The finalizers that are not the controller's own. */
  function Unrelated(fs: seq<string>): seq<string> {
    Filter(fs, (f: string) => !EqualFold(f, FINALIZER))
  }

  // ---------- what protects an object ----------

  /** The incarnation `uid` of the object is in the store and carries the cleanup finalizer. */
  ghost predicate Guarded(s: Db, key: Key, uid: nat) {
    && key in s.objects && s.objects[key].uid == uid
    && FINALIZER in s.objects[key].finalizers
  }

  /** The request does not take the cleanup finalizer off the object. */
  predicate Keeps(s: Db, key: Key, r: Req) {
    r.Put? && r.key == key && key in s.objects ==>
      var live := s.objects[key];
      var accepted := r.sent.version == live.version &&
          !(live.deleting && exists f :: f in r.sent.finalizers && f !in live.finalizers);
      accepted && FINALIZER in live.finalizers ==> FINALIZER in r.sent.finalizers
  }

  /** Of all requests, exactly those that keep the finalizer keep a guarded object guarded. */
  lemma GuardedIffKept(s: Db, key: Key, uid: nat, r: Req)
    requires Consistent(s) && Guarded(s, key, uid)
    ensures Guarded(Handle(s, r).store, key, uid) <==> Keeps(s, key, r)
  {
    if r.key != key {
      HandleIsLocal(s, r, key);
    }
  }

  type Log = seq<Entry<Tree, StatusValue>>

  /** Somebody else's request took the cleanup finalizer off, or the object away. */
  ghost predicate StrippedBy(e: Entry<Tree, StatusValue>, key: Key, uid: nat) {
    e.actor == Other && Guarded(e.before, key, uid) && !Guarded(e.after, key, uid)
  }

  ghost predicate Stripped(log: Log, key: Key, uid: nat) {
    exists n :: 0 <= n < |log| && StrippedBy(log[n], key, uid)
  }

  lemma StrippedLasts(log: Log, longer: Log, key: Key)
    requires log <= longer
    ensures forall uid :: Stripped(log, key, uid) ==> Stripped(longer, key, uid)
  {
    forall uid | Stripped(log, key, uid)
      ensures Stripped(longer, key, uid)
    {
      var n :| 0 <= n < |log| && StrippedBy(log[n], key, uid);
      assert longer[n] == log[n];
    }
  }

  /** Only a request that does not keep the finalizer strips an object. */
  lemma StrippedIff(e: Entry<Tree, StatusValue>, key: Key, uid: nat)
    requires Faithful(e) && Consistent(e.before) && e.actor == Other && Guarded(e.before, key, uid)
    ensures StrippedBy(e, key, uid) <==> !Keeps(e.before, key, e.request)
  {
    GuardedIffKept(e.before, key, uid, e.request);
  }

  // ---------- one pass ----------

  datatype HandlerResult = Done(requeue: bool) | StillProcessing | Failed

  /** What happens to a pass: the requests of others at each point, and what the plugin does. */
  datatype Turn = Turn(
    beforeRead: seq<Req>,
    convertible: bool,
    message: string,          // of the conversion error
    now: int,
    duringHandler: seq<Req>,  // those of the plugin handler among them
    handler: HandlerResult,
    beforeReread: seq<Req>,
    beforeWrite: seq<Req>)

  datatype Outcome = Finished | Requeued | Errored

  /** A pass that took the finalizer off, and the object as it was read again. */
  datatype Release = Release(handler: HandlerResult, reread: Obj)

  ghost predicate Qualified(r: Release) {
    && r.handler == Done(false)
    && r.reread.deleting
    && r.reread.status.Some? && r.reread.status.value.state == DELETING
    && FINALIZER in r.reread.finalizers
  }

  /** A write of the controller itself: it only ever touches its own finalizer or the status. */
  ghost predicate OwnWrite(before: Db, after: Db, key: Key) {
    if key !in before.objects then key !in after.objects
    else if key in after.objects then
      && after.objects[key].uid == before.objects[key].uid
      && after.objects[key].main == before.objects[key].main
      && after.objects[key].deleting == before.objects[key].deleting
      && Unrelated(after.objects[key].finalizers) == Unrelated(before.objects[key].finalizers)
    else before.objects[key].deleting && Unrelated(before.objects[key].finalizers) == []
  }

  /** The log went on, and the controller's own requests in the new part touched its finalizer or the status only. */
  ghost predicate OwnWrites(log: Log, longer: Log, key: Key) {
    && log <= longer
    && (forall n :: |log| <= n < |longer| && longer[n].actor == Self ==>
        OwnWrite(longer[n].before, longer[n].after, key))
  }

  lemma LogGoesOn(log: Log, longer: Log, key: Key)
    requires OwnWrites(log, longer, key)
    ensures log <= longer
  {
  }

  lemma OwnWritesAcross(a: Log, b: Log, c: Log, key: Key)
    requires OwnWrites(a, b, key) && OwnWrites(b, c, key)
    ensures OwnWrites(a, c, key)
  {
    hide OwnWrite;
    assert forall n :: 0 <= n < |b| ==> c[n] == b[n];
  }

  /** Reading is no write. */
  lemma ReadIsOwnWrite(s: Db, key: Key)
    ensures OwnWrite(s, s, key)
  {
  }

  lemma AddingKeepsUnrelated(fs: seq<string>)
    ensures Unrelated(fs + [FINALIZER]) == Unrelated(fs)
  {
    FilterAppend(fs, [FINALIZER], (f: string) => !EqualFold(f, FINALIZER));
  }

  lemma {:induction false} RemovingKeepsUnrelated(fs: seq<string>)
    ensures Unrelated(Unrelated(fs)) == Unrelated(fs)
    ensures FINALIZER !in Unrelated(fs)
  {
    FilterKeepsAll(Unrelated(fs), (f: string) => !EqualFold(f, FINALIZER));
  }

  /** One by one: a finalizer goes exactly if it is the controller's but for the case of its letters. */
  lemma UnrelatedOneByOne(fs: seq<string>, f: string)
    ensures Unrelated([]) == []
    ensures Unrelated(fs + [f]) == Unrelated(fs) +
              if |f| == |FINALIZER| && (forall i :: 0 <= i < |f| ==> LowerChar(f[i]) == FINALIZER[i]) then [] else [f]
  {
    FilterAppend(fs, [f], (f: string) => !EqualFold(f, FINALIZER));
    assert forall i :: 0 <= i < |FINALIZER| ==> LowerChar(FINALIZER[i]) == FINALIZER[i];
  }

  /** One of the controller's reads since then found this. */
  ghost predicate WasRead(log: Log, from: nat, key: Key, got: Option<Obj>) {
    exists n :: from <= n < |log| && log[n].actor == Self && log[n].request == Get(key)
      && ObjectAt(log[n].before, key) == got
  }

  lemma StillRead(log: Log, longer: Log, from: nat, later: nat, key: Key, got: Option<Obj>)
    requires log <= longer && from <= later && WasRead(log, later, key, got)
    ensures WasRead(longer, from, key, got)
  {
    var n :| later <= n < |log| && log[n].actor == Self && log[n].request == Get(key)
          && ObjectAt(log[n].before, key) == got;
    assert longer[n] == log[n];
  }

  /** The last request was the controller's own write of this object, and the store refused it. */
  ghost predicate WriteRefused(log: Log, from: nat, key: Key, sent: Obj) {
    && from < |log|
    && var last := log[|log| - 1];
       last.actor == Self && last.request == Put(key, sent) && !Handle(last.before, last.request).reply.Ok?
  }

  /** The store has the object as it is given here, under a new version. */
  predicate Holds(s: Db, key: Key, o: Obj) {
    key in s.objects && s.objects[key].(version := o.version) == o
  }

  function WithFinalizer(o: Obj): Obj {
    o.(finalizers := o.finalizers + [FINALIZER])
  }

  function WithoutFinalizer(o: Obj): Obj {
    o.(finalizers := Unrelated(o.finalizers))
  }

  /** On the version that is stored both writes of the controller are accepted. */
  lemma AddingIsAccepted(s: Db, key: Key)
    requires Consistent(s) && key in s.objects && !s.objects[key].deleting
    ensures Handle(s, Put(key, WithFinalizer(s.objects[key]))).reply.Ok?
  {
  }

  lemma LettingGoIsAccepted(s: Db, key: Key)
    requires Consistent(s) && key in s.objects
    ensures Handle(s, Put(key, WithoutFinalizer(s.objects[key]))).reply.Ok?
  {
    assert forall f :: f in Unrelated(s.objects[key].finalizers) ==> f in s.objects[key].finalizers;
  }

  class Controller {
    const key: Key
    const maxConditions: int
    const server: Server<Tree, StatusValue>
    // Incarnations handed to the plugin while they were not under deletion.
    ghost var handled: set<nat>
    ghost var releases: seq<Release>

    /**
      Whatever was handed to the plugin while live is still guarded by the finalizer, or was released
      by a pass whose handler finished and which saw the deletion complete, or somebody else's request
      took the finalizer off.
     */
    ghost predicate Safe()
      reads this, server
    {
      && server.Valid()
      && (forall r :: r in releases ==> Qualified(r))
      && (forall uid :: uid in handled ==>
            Guarded(server.store, key, uid) || Released(uid) || Stripped(server.log, key, uid))
    }

    ghost predicate Released(uid: nat)
      reads this
    {
      exists r :: r in releases && r.reread.uid == uid
    }

    constructor (server: Server<Tree, StatusValue>, key: Key, maxConditions: int)
      requires server.Valid()
      ensures Safe() && this.server == server && this.key == key && this.maxConditions == maxConditions
      ensures handled == {} && releases == []
    {
      this.server, this.key, this.maxConditions := server, key, maxConditions;
      handled, releases := {}, [];
    }

    /** Others make any requests whatever. */
    method Interfere(requests: seq<Req>)
      requires Safe()
      modifies server
      ensures Safe() && OwnWrites(old(server.log), server.log, key)
      ensures server.store == Served(old(server.store), requests)
      ensures forall n :: |old(server.log)| <= n < |server.log| ==> server.log[n].actor == Other
      ensures forall k, base :: Snapshot(old(server.store), k, base) ==> Snapshot(server.store, k, base)
    {
      for i := 0 to |requests|
        invariant Safe() && old(server.log) <= server.log
        invariant server.store == Served(old(server.store), requests[..i])
        invariant forall n :: |old(server.log)| <= n < |server.log| ==> server.log[n].actor == Other
        invariant forall k, base :: Snapshot(old(server.store), k, base) ==> Snapshot(server.store, k, base)
      {
        hide Snapshot, Handle, Safe;
        OneOther(requests[i]);
        assert requests[..i + 1][..i] == requests[..i];
      }
      assert requests[..|requests|] == requests;
    }

    method OneOther(request: Req)
      requires Safe()
      modifies server
      ensures Safe() && server.store == Handle(old(server.store), request).store
      ensures old(server.log) <= server.log && |server.log| == |old(server.log)| + 1
      ensures server.log[|old(server.log)|].actor == Other
      ensures forall k, base :: Snapshot(old(server.store), k, base) ==> Snapshot(server.store, k, base)
    {
      hide Handle, Snapshot, Guarded;
      HandleKeepsSnapshots(server.store, request);
      ghost var before, known := server.store, server.log;
      var _ := server.Serve(request, Other);
      StrippedLasts(known, server.log, key);
      assert server.log[|known|] == Entry(Other, request, before, server.store);
      assert forall uid :: Guarded(before, key, uid) && !Guarded(server.store, key, uid) ==>
          StrippedBy(server.log[|known|], key, uid);
    }

    /** One write of the controller, with the version it read. */
    method Write(request: Req, ghost base: Obj) returns (reply: Reply<Tree, StatusValue>)
      requires Safe() && Snapshot(server.store, key, base) && request.key == key
      requires request.Put? || request.PutStatus?
      requires request.sent.version == base.version
      requires request.Put? ==>
                 request.sent.main == base.main && Unrelated(request.sent.finalizers) == Unrelated(base.finalizers)
      requires request.Put? ==> FINALIZER in request.sent.finalizers || FINALIZER in base.finalizers
      modifies server
      ensures server.Valid()
      ensures OwnWrites(old(server.log), server.log, key) && OwnWrite(old(server.store), server.store, key)
      ensures server.log == old(server.log) + [Entry(Self, request, old(server.store), server.store)]
      ensures Answer(server.store, reply) == Handle(old(server.store), request)
      ensures reply.Ok? ==> old(key in server.store.objects && server.store.objects[key] == base)
      ensures !reply.Ok? ==> server.store == old(server.store)
      ensures request.PutStatus? || FINALIZER in request.sent.finalizers ==> Safe()
    {
      if Keeps(server.store, key, request) {
        forall uid | Guarded(server.store, key, uid)
          ensures Guarded(Handle(server.store, request).store, key, uid)
        {
          GuardedIffKept(server.store, key, uid, request);
        }
      }
      reply := server.Serve(request, Self);
      StrippedLasts(old(server.log), server.log, key);
    }

    /** Reads the object as it is. */
    method Read() returns (got: Option<Obj>)
      requires Safe()
      modifies server
      ensures Safe() && OwnWrites(old(server.log), server.log, key) && server.store == old(server.store)
      ensures got == ObjectAt(server.store, key) && WasRead(server.log, |old(server.log)|, key, got)
      ensures got.Some? ==> Snapshot(server.store, key, got.value)
    {
      ReadIsOwnWrite(server.store, key);
      var reply := server.Serve(Get(key), Self);
      assert server.log[|old(server.log)|].request == Get(key);
      StrippedLasts(old(server.log), server.log, key);
      got := if reply.Ok? then Some(reply.found) else None;
    }

    predicate Fresh(obj: Obj) {
      !obj.deleting && FINALIZER !in obj.finalizers
    }

    /** The last request of the pass is the status that tells about the failed conversion. */
    ghost predicate ToldFailure(turn: Turn, obj: Obj)
      reads server
    {
      && server.log != []
      && var last := server.log[|server.log| - 1];
         && last.actor == Self && last.after == server.store
         && last.request == PutStatus(key, obj.(status := Some(ConversionFailure(turn, obj))))
    }

    /**
      How a pass ends that began at `from`, read `obj` and, after its handler was through, `reread`: the
      outcome, and whether the object was let go. A write is an error only if the store refused it, and
      it does not refuse it if nobody comes in between.
     */
    ghost predicate Ends(turn: Turn, from: nat, obj: Obj, reread: Option<Obj>, before: seq<Release>, outcome: Outcome)
      reads this, server
    {
      if Fresh(obj) then
        && releases == before
        && (turn.beforeWrite == [] ==> outcome.Requeued?)
        && (if outcome.Requeued? then Holds(server.store, key, WithFinalizer(obj))
            else outcome.Errored? && WriteRefused(server.log, from, key, WithFinalizer(obj)))
      else if !turn.convertible then releases == before && outcome.Finished? && ToldFailure(turn, obj)
      else if turn.handler != Done(false) then
        releases == before && outcome == if turn.handler.Failed? then Errored else Requeued
      else if reread.Some? && Qualified(Release(turn.handler, reread.value)) then
        && (turn.beforeWrite == [] ==> outcome.Finished?)
        && LetGoOrRefused(turn, from, reread.value, before, outcome)
      else releases == before && outcome.Finished?
    }

    lemma EndsSince(turn: Turn, earlier: nat, from: nat, obj: Obj, reread: Option<Obj>, before: seq<Release>,
                    outcome: Outcome)
      requires earlier <= from && Ends(turn, from, obj, reread, before, outcome)
      ensures Ends(turn, earlier, obj, reread, before, outcome)
    {
      hide ToldFailure, Holds, Handle;
    }

    /** The object went, or keeps its other finalizers; or the store refused that. */
    ghost predicate LetGoOrRefused(turn: Turn, from: nat, obj: Obj, before: seq<Release>, outcome: Outcome)
      reads this, server
    {
      if outcome.Finished? then
        && releases == before + [Release(turn.handler, obj)]
        && if Unrelated(obj.finalizers) == [] then key !in server.store.objects
           else Holds(server.store, key, WithoutFinalizer(obj))
      else releases == before && outcome.Errored? && WriteRefused(server.log, from, key, WithoutFinalizer(obj))
    }

    /** The handler is called: the finalizer is there, or the object is going, and it can be converted. */
    predicate Handles(turn: Turn, obj: Obj) {
      turn.convertible && !Fresh(obj)
    }

    /** One pass. What is done depends on the object as it was read first, on the handler, and on the re-read. */
    method Reconcile(turn: Turn)
      returns (outcome: Outcome, ghost got: Option<Obj>, ghost at: nat, ghost reread: Option<Obj>)
      requires Safe() && turn.now != 0
      modifies this, server
      ensures Safe() && OwnWrites(old(server.log), server.log, key)
      ensures |old(server.log)| <= at <= |server.log| && WasRead(server.log[..at], |old(server.log)|, key, got)
      ensures got.None? ==> outcome.Finished? && handled == old(handled) && releases == old(releases)
      ensures got.Some? ==> Ends(turn, |old(server.log)|, got.value, reread, old(releases), outcome)
      ensures got.Some? ==>
                handled == old(handled)
                           + if Handles(turn, got.value) && !got.value.deleting then {got.value.uid} else {}
      ensures got.Some? && Handles(turn, got.value) && turn.handler == Done(false) ==>
                WasRead(server.log, at, key, reread)
    {
      hide OwnWrites, Safe, Snapshot, WasRead, Ends;
      Interfere(turn.beforeRead);
      ghost var one := server.log;
      var found := Read();
      got, reread := found, None;
      LogGoesOn(old(server.log), one, key);
      OwnWritesAcross(old(server.log), one, server.log, key);
      ghost var two := server.log;
      at := |two|;
      StillRead(two, two, |old(server.log)|, |one|, key, got);
      assert two[..at] == two;
      if found.None? { return Finished, got, at, reread; }
      outcome, reread := Treat(turn, found.value);
      EndsSince(turn, |old(server.log)|, |two|, found.value, reread, old(releases), outcome);
      LogGoesOn(two, server.log, key);
      OwnWritesAcross(old(server.log), two, server.log, key);
      assert server.log[..at] == two;
    }

    /** The pass once the object was read. */
    method Treat(turn: Turn, obj: Obj) returns (outcome: Outcome, ghost reread: Option<Obj>)
      requires Safe() && turn.now != 0
      requires ObjectAt(server.store, key) == Some(obj) && Snapshot(server.store, key, obj)
      modifies this, server
      ensures Safe() && OwnWrites(old(server.log), server.log, key)
      ensures Ends(turn, |old(server.log)|, obj, reread, old(releases), outcome)
      ensures handled == old(handled) + if Handles(turn, obj) && !obj.deleting then {obj.uid} else {}
      ensures Handles(turn, obj) && turn.handler == Done(false) ==>
                WasRead(server.log, |old(server.log)|, key, reread)
    {
      hide OwnWrites, Safe, Snapshot, WasRead, Qualified, ConversionFailure;
      reread := None;
      if !obj.deleting && FINALIZER !in obj.finalizers {
        outcome := AddFinalizer(turn, obj);
        return;
      }

      if !turn.convertible {
        ReportConversionFailure(turn, obj);
        return Finished, reread;
      }

      HandTo(obj);
      Interfere(turn.duringHandler);
      match turn.handler
      case StillProcessing => return Requeued, reread;
      case Failed => return Errored, reread;
      case Done(requeue) =>
        if requeue { return Requeued, reread; }
        ghost var three := server.log;
        outcome, reread := RemoveFinalizer(turn);
        LogGoesOn(old(server.log), three, key);
        OwnWritesAcross(old(server.log), three, server.log, key);
        StillRead(server.log, server.log, |old(server.log)|, |three|, key, reread);
    }

    /** The plugin takes over a live object; what it does to the store is among the requests of others. */
    method HandTo(obj: Obj)
      requires Safe() && ObjectAt(server.store, key) == Some(obj)
      requires !obj.deleting ==> FINALIZER in obj.finalizers
      modifies this
      ensures Safe() && server.log == old(server.log)
      ensures releases == old(releases)
      ensures handled == if obj.deleting then old(handled) else old(handled) + {obj.uid}
    {
      if !obj.deleting {
        handled := handled + {obj.uid};
      }
    }

    /** A fresh object gets the finalizer behind its others, unless the store refuses that. */
    method AddFinalizer(turn: Turn, obj: Obj) returns (outcome: Outcome)
      requires Safe() && Snapshot(server.store, key, obj) && ObjectAt(server.store, key) == Some(obj) && !obj.deleting
      modifies server
      ensures Safe() && OwnWrites(old(server.log), server.log, key)
      ensures turn.beforeWrite == [] ==> outcome.Requeued?
      ensures if outcome.Requeued? then Holds(server.store, key, WithFinalizer(obj))
              else outcome.Errored? && WriteRefused(server.log, |old(server.log)|, key, WithFinalizer(obj))
    {
      AddingKeepsUnrelated(obj.finalizers);
      AddingIsAccepted(server.store, key);
      Interfere(turn.beforeWrite);
      ghost var one := server.log;
      LogGoesOn(old(server.log), one, key);
      hide OwnWrites, OwnWrite;
      var put := Write(Put(key, obj.(finalizers := obj.finalizers + [FINALIZER])), obj);
      OwnWritesAcross(old(server.log), one, server.log, key);
      return if put.Ok? then Requeued else Errored;
    }

    /** The status that tells about a failed conversion. */
    function ConversionFailure(turn: Turn, obj: Obj): StatusValue {
      var status := if obj.status.Some? then obj.status.value else StatusValue("", []);
      var failed := Condition(ERROR, "ConversionFailed", "DomainConversionFailed", turn.message, turn.now, 0);
      var pushed := Pushed(status, failed, turn.now);
      pushed.(conditions := Newest(pushed.conditions, maxConditions))
    }

    /** What it says, and what stays behind it. */
    lemma ConversionFailureTells(turn: Turn, obj: Obj)
      requires turn.now != 0
      ensures var read := if obj.status.Some? then obj.status.value.conditions else [];
              var failed := Condition("error", "ConversionFailed", "DomainConversionFailed", turn.message, turn.now, 0);
              && PutInFront(read, ConversionFailure(turn, obj).conditions, failed, maxConditions)
              && (read == [] || CauseOf(read[0]) != CauseOf(failed) ==> ConversionFailure(turn, obj).state == "error")
    {
      var status := if obj.status.Some? then obj.status.value else StatusValue("", []);
      PushAndTrim(status, Condition(ERROR, "ConversionFailed", "DomainConversionFailed", turn.message, turn.now, 0),
                  turn.now, maxConditions);
    }

    method ReportConversionFailure(turn: Turn, obj: Obj)
      requires Safe() && turn.now != 0 && Snapshot(server.store, key, obj)
      modifies server
      ensures Safe() && OwnWrites(old(server.log), server.log, key)
      ensures |server.log| > |old(server.log)| && ToldFailure(turn, obj)
    {
      hide OwnWrites, OwnWrite, Safe;
      var status := new Status(if obj.status.Some? then obj.status.value else StatusValue("", []));
      var failed := Condition(ERROR, "ConversionFailed", "DomainConversionFailed", turn.message, turn.now, 0);
      status.PushCondition(failed, turn.now);
      status.TrimConditions(maxConditions);
      hide Pushed, Newest;
      Interfere(turn.beforeWrite);
      ghost var one := server.log;
      LogGoesOn(old(server.log), one, key);
      var _ := Write(PutStatus(key, obj.(status := Some(status.Value()))), obj);
      OwnWritesAcross(old(server.log), one, server.log, key);
    }

    /** The handler is through: the object is let go exactly if the re-read shows that deletion is complete. */
    method RemoveFinalizer(turn: Turn) returns (outcome: Outcome, ghost reread: Option<Obj>)
      requires Safe() && turn.handler == Done(false)
      modifies this, server
      ensures Safe() && OwnWrites(old(server.log), server.log, key)
      ensures handled == old(handled)
      ensures WasRead(server.log, |old(server.log)|, key, reread)
      ensures if reread.Some? && Qualified(Release(turn.handler, reread.value)) then
                && (turn.beforeWrite == [] ==> outcome.Finished?)
                && LetGoOrRefused(turn, |old(server.log)|, reread.value, old(releases), outcome)
              else releases == old(releases) && outcome.Finished?
    {
      hide OwnWrites, Safe, Snapshot, FINALIZER, WasRead, Holds, WithoutFinalizer;
      Interfere(turn.beforeReread);
      ghost var one := server.log;
      var got := Read();
      reread := got;
      OwnWritesAcross(old(server.log), one, server.log, key);
      ghost var two := server.log;
      LogGoesOn(old(server.log), one, key);
      StillRead(two, two, |old(server.log)|, |one|, key, got);
      if got.None? { return Finished, reread; }
      var obj := got.value;
      var state := if obj.status.Some? then obj.status.value.state else "";
      if obj.deleting && state == DELETING && FINALIZER in obj.finalizers {
        LogGoesOn(one, two, key);
        outcome := LetGo(turn, obj);
        LogGoesOn(two, server.log, key);
        OwnWritesAcross(old(server.log), two, server.log, key);
        StillRead(two, server.log, |old(server.log)|, |old(server.log)|, key, got);
        return;
      }
      return Finished, reread;
    }

    /** The releasing write, on the version of the re-read. */
    method LetGo(turn: Turn, obj: Obj) returns (outcome: Outcome)
      requires Safe() && Snapshot(server.store, key, obj) && ObjectAt(server.store, key) == Some(obj)
      requires Qualified(Release(turn.handler, obj))
      modifies this, server
      ensures Safe() && OwnWrites(old(server.log), server.log, key)
      ensures handled == old(handled)
      ensures turn.beforeWrite == [] ==> outcome.Finished?
      ensures LetGoOrRefused(turn, |old(server.log)|, obj, old(releases), outcome)
    {
      RemovingKeepsUnrelated(obj.finalizers);
      LettingGoIsAccepted(server.store, key);
      Interfere(turn.beforeWrite);
      ghost var one := server.log;
      LogGoesOn(old(server.log), one, key);
      hide OwnWrites, OwnWrite;
      var put := Write(Put(key, obj.(finalizers := Unrelated(obj.finalizers))), obj);
      OwnWritesAcross(old(server.log), one, server.log, key);
      if !put.Ok? { return Errored; }
      releases := releases + [Release(turn.handler, obj)];
      assert Released(obj.uid) by { assert releases[|releases| - 1].reread.uid == obj.uid; }
      return Finished;
    }

    /** Any number of passes over the object, with other clients at work before, between and in them. */
    method Drive(turns: seq<Turn>)
      requires Safe() && (forall i :: 0 <= i < |turns| ==> turns[i].now != 0)
      modifies this, server
      ensures Safe() && handled >= old(handled)
      ensures OwnWrites(old(server.log), server.log, key)
    {
      for i := 0 to |turns|
        invariant Safe() && handled >= old(handled)
        invariant OwnWrites(old(server.log), server.log, key)
      {
        hide OwnWrites, Safe;
        ghost var before := server.log;
        var _, _, _, _ := Reconcile(turns[i]);
        OwnWritesAcross(old(server.log), before, server.log, key);
      }
    }
  }
}
