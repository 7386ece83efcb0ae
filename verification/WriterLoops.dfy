/**
  The retry loops of the writers, step by step against a mutable API server. Between any two
  requests other clients may make arbitrary requests: `schedule` says which.
 */
module WriterLoops {
  import opened Prelude
  import opened ApiServer
  import opened Writers

  type Log = seq<Entry<Main, Tree>>

  /**
    A call that returned nil happened at one of its own requests, all of it; one that was refused
    changed nothing.
   */
  ghost predicate Linearised(log: Log, from: nat, c: Call, result: Result) {
    if result.Refused? then Silent(log, from, -1)
    else
      exists n :: Instant(log, from, c, n)
  }

  ghost predicate Instant(log: Log, from: nat, c: Call, n: int) {
    && from <= n < |log| && log[n].actor == Self
    && log[n].after == Atomic(c, log[n].before) && Satisfied(c, log[n].after)
    && Silent(log, from, n)
  }

  /**
    A refusal is the store's answer to the call's own last request; a conflict is given back only after
    five commits of others.
   */
  ghost predicate Justified(log: Log, from: nat, key: Key, result: Result, spoilers: seq<nat>) {
    result.Refused? ==>
      && RefusedWith(log, from, key, result.reply)
      && (result.reply.Conflict? ==> |spoilers| == ATTEMPTS && Overtaken(log, from, key, spoilers))
  }

  /** The call as it is when nobody interferes: what was supplied is stored, the rest is as it was. */
  lemma AtomicReads(c: Call, s: Db)
    requires c.key in s.objects
    ensures c.SpecUpdate? && !s.objects[c.key].deleting ==>
              && c.key in Atomic(c, s).objects
              && var was, now := s.objects[c.key], Atomic(c, s).objects[c.key];
                 && now.main.spec == (if c.desired.spec.Some? then c.desired.spec else was.main.spec)
                 && now.main.commonData
                    == (if c.desired.commonData.Some? then c.desired.commonData else was.main.commonData)
                 && now.main.labels == c.desired.labels && now.main.annotations == c.desired.annotations
                 && now.status == was.status && now.finalizers == was.finalizers && !now.deleting
    ensures c.SpecUpdate? && s.objects[c.key].deleting ==> Atomic(c, s) == s
    ensures c.StatusUpdate? ==>
              && c.key in Atomic(c, s).objects
              && var was, now := s.objects[c.key], Atomic(c, s).objects[c.key];
                 now.status == c.status && now.main == was.main && now.finalizers == was.finalizers
                 && now.deleting == was.deleting
    ensures c.VersionedUpdate? && s.objects[c.key].version == c.version && !s.objects[c.key].deleting ==>
              c.key in Atomic(c, s).objects && Atomic(c, s).objects[c.key].main == c.replacement
  {
  }

  /** Overwrites the fields of the fetched object that differ from what is asked for. */
  method EditFetched(fetched: Obj, desired: Main, ghost key: Key) returns (current: Obj, changed: bool)
    ensures current == Edit(SpecUpdate(key, desired), fetched)
    ensures !fetched.deleting ==> (changed <==> !NothingToWrite(SpecUpdate(key, desired), fetched))
    ensures changed <==> current != fetched
  {
    current := fetched;
    var spec := SyncNestedMap(current.main.spec, desired.spec);
    current := current.(main := current.main.(spec := spec.value));
    var commonData := SyncNestedMap(current.main.commonData, desired.commonData);
    current := current.(main := current.main.(commonData := commonData.value));
    var labelsChanged := current.main.labels != desired.labels;
    if labelsChanged {
      current := current.(main := current.main.(labels := desired.labels));
    }
    var annotationsChanged := current.main.annotations != desired.annotations;
    if annotationsChanged {
      current := current.(main := current.main.(annotations := desired.annotations));
    }
    changed := spec.changed || commonData.changed || labelsChanged || annotationsChanged;
  }

  /** Requests that change nothing keep what is known about a log. */
  lemma LogGrows(log: Log, longer: Log, from: nat, c: Call)
    requires from <= |log| && GoesOnSilently(log, longer)
    ensures Silent(log, from, -1) ==> Silent(longer, from, -1)
    ensures forall n :: Instant(log, from, c, n) ==> Instant(longer, from, c, n)
  {
    hide Atomic, Satisfied;
    assert forall n :: 0 <= n < |log| ==> longer[n] == log[n];
  }

  /** Reads the object; if there is nothing to write, this was the instant of the call. */
  method Fetch(server: Server<Main, Tree>, ghost c: Call, key: Key, requests: seq<Req>, ghost from: nat)
    returns (got: Reply<Main, Tree>)
    requires server.Valid() && key == c.key && !c.VersionedUpdate?
    requires from <= |server.log| && Silent(server.log, from, -1)
    modifies server
    ensures server.Valid() && old(server.log) <= server.log && Silent(server.log, from, -1)
    ensures got.Ok? ==> Snapshot(server.store, key, got.found)
    ensures got.Ok? && NothingToWrite(c, got.found) ==> Instant(server.log, from, c, |server.log| - 1)
    ensures server.store == Served(old(server.store), requests)
    ensures got == if key in server.store.objects then Ok(server.store.objects[key]) else NotFound
    ensures !got.Ok? ==> RefusedWith(server.log, from, key, got)
  {
    server.Interfere(requests);
    LogGrows(old(server.log), server.log, from, c);
    MoveIsAtomicOrSilent(server.store, Thread(c, Reading(1)));
    ghost var before := server.log;
    got := server.Serve(Get(key), Self);
    LogGrows(before, server.log, from, c);
  }

  /** Writes the edited object with the version read; success is the instant of the call. */
  method Send(server: Server<Main, Tree>, ghost c: Call, ghost base: Obj, request: Req, requests: seq<Req>,
              ghost from: nat)
    returns (reply: Reply<Main, Tree>)
    requires server.Valid() && ThreadOk(server.store, Thread(c, Writing(1, base)))
    requires request == NextRequest(c, Writing(1, base))
    requires from <= |server.log| && Silent(server.log, from, -1)
    modifies server
    ensures server.Valid() && old(server.log) <= server.log
    ensures if reply.Ok? then Instant(server.log, from, c, |server.log| - 1)
            else Silent(server.log, from, -1) && RefusedWith(server.log, from, c.key, reply)
    ensures Answer(server.store, reply) == Handle(Served(old(server.store), requests), request)
    ensures reply.Conflict? && !c.VersionedUpdate? && old(ObjectAt(server.store, c.key)) == Some(base) ==>
              exists n :: |old(server.log)| <= n < |server.log| && ForeignCommit(server.log[n], c.key)
  {
    server.Interfere(requests);
    LogGrows(old(server.log), server.log, from, c);
    MoveIsAtomicOrSilent(server.store, Thread(c, Writing(1, base)));
    ghost var before := server.log;
    reply := server.Serve(request, Self);
    if reply.Conflict? && !c.VersionedUpdate? && old(ObjectAt(server.store, c.key)) == Some(base) {
      ghost var n :| |old(server.log)| <= n < |before| && ForeignCommit(before[n], c.key);
      assert server.log[n] == before[n];
    }
    if reply.Ok? {
      assert Silent(server.log, from, |server.log| - 1) by { assert Silent(before, from, -1); }
    } else {
      LogGrows(before, server.log, from, c);
    }
  }

  /** One attempt of the spec loop: fetch, edit, and write unless there is nothing to write. */
  method TrySpec(server: Server<Main, Tree>, key: Key, desired: Main, read: seq<Req>, write: seq<Req>, ghost from: nat)
    returns (result: Result, ghost spoiler: nat)
    requires server.Valid() && from <= |server.log| && Silent(server.log, from, -1)
    modifies server
    ensures server.Valid() && old(server.log) <= server.log && Attempted(server.log, from, key, result)
    ensures Linearised(server.log, from, SpecUpdate(key, desired), result)
    ensures result == Refused(Conflict) ==>
              |old(server.log)| <= spoiler < |server.log| && ForeignCommit(server.log[spoiler], key)
    ensures read == [] && write == [] ==>
              && result == (if key in old(server.store).objects then Nil else Refused(NotFound))
              && server.store == Atomic(SpecUpdate(key, desired), old(server.store))
  {
    ghost var c := SpecUpdate(key, desired);
    hide Instant, Atomic, Handle, ForeignCommit;
    spoiler := 0;
    var got := Fetch(server, c, key, read, from);
    Undisturbed(old(server.store), c);
    if !got.Ok? { return Refused(got), spoiler; }
    if got.found.deleting { return Nil, spoiler; }

    var current, changed := EditFetched(got.found, desired, key);
    if !changed { return Nil, spoiler; }

    ghost var before := server.store;
    var reply := Send(server, c, got.found, Put(key, current), write, from);
    WriteIsAccepted(before, c);
    if reply.Conflict? {
      ghost var n :| |old(server.log)| <= n < |server.log| && ForeignCommit(server.log[n], key);
      spoiler := n;
    }
    result := if reply.Ok? then Nil else Refused(reply);
  }

  /** An attempt ends with nil, or with the store's refusal of its own last request. */
  ghost predicate Attempted(log: Log, from: nat, key: Key, result: Result) {
    result.Nil? || (result.Refused? && RefusedWith(log, from, key, result.reply))
  }

  /** With nothing to write the call is nothing; without the object it is nothing. */
  lemma Undisturbed(s: Db, c: Call)
    requires !c.VersionedUpdate?
    ensures c.key !in s.objects || NothingToWrite(c, s.objects[c.key]) ==> Atomic(c, s) == s
    ensures Served(s, []) == s
  {
  }

  /** If nobody comes in between, the write of an attempt is accepted and is the call. */
  lemma WriteIsAccepted(s: Db, c: Call)
    requires Consistent(s) && !c.VersionedUpdate? && c.key in s.objects && !NothingToWrite(c, s.objects[c.key])
    ensures var answer := Handle(s, NextRequest(c, Writing(1, s.objects[c.key])));
            answer.reply.Ok? && answer.store == Atomic(c, s)
    ensures Served(s, []) == s
  {
  }

  method UpdateMetadataAndSpecRetry(server: Server<Main, Tree>, key: Key, desired: Main, schedule: seq<seq<Req>>)
    returns (result: Result, ghost spoilers: seq<nat>)
    requires server.Valid()
    modifies server
    ensures server.Valid() && old(server.log) <= server.log
    ensures Linearised(server.log, |old(server.log)|, SpecUpdate(key, desired), result)
    ensures !result.Vanished? && Justified(server.log, |old(server.log)|, key, result, spoilers)
    ensures schedule == [] ==>
              && result == (if key in old(server.store).objects then Nil else Refused(NotFound))
              && server.store == Atomic(SpecUpdate(key, desired), old(server.store))
  {
    hide Instant, Atomic, ForeignCommit, RefusedWith, Overtaken;
    ghost var from := |server.log|;
    spoilers := [];
    NobodyYet(server.log, key);
    result := Nil;
    for attempt := 0 to ATTEMPTS
      invariant server.Valid() && old(server.log) <= server.log
      invariant Silent(server.log, from, -1) && Overtaken(server.log, from, key, spoilers) && |spoilers| == attempt
      invariant attempt == 0 ==> server.store == old(server.store)
      invariant attempt > 0 ==>
                  schedule != [] && Attempted(server.log, from, key, result) && result == Refused(Conflict)
    {
      ghost var before, spoiler := server.log, 0;
      result, spoiler := TrySpec(server, key, desired, At(schedule, 2 * attempt), At(schedule, 2 * attempt + 1), from);
      OvertakenLasts(before, server.log, from, key, spoilers);
      if result != Refused(Conflict) { return; }
      spoilers := spoilers + [spoiler];
    }
  }

  /** One attempt of the status loop. */
  method TryStatus(server: Server<Main, Tree>, key: Key, desired: Tree, read: seq<Req>, write: seq<Req>,
                   ghost from: nat)
    returns (result: Result, ghost spoiler: nat)
    requires server.Valid() && from <= |server.log| && Silent(server.log, from, -1)
    modifies server
    ensures server.Valid() && old(server.log) <= server.log && Attempted(server.log, from, key, result)
    ensures Linearised(server.log, from, StatusUpdate(key, Some(desired)), result)
    ensures result == Refused(Conflict) ==>
              |old(server.log)| <= spoiler < |server.log| && ForeignCommit(server.log[spoiler], key)
    ensures read == [] && write == [] ==>
              && result == (if key in old(server.store).objects then Nil else Refused(NotFound))
              && server.store == Atomic(StatusUpdate(key, Some(desired)), old(server.store))
  {
    ghost var c := StatusUpdate(key, Some(desired));
    hide Instant, Atomic, Handle, ForeignCommit;
    spoiler := 0;
    var got := Fetch(server, c, key, read, from);
    Undisturbed(old(server.store), c);
    if !got.Ok? { return Refused(got), spoiler; }

    var current := got.found;
    if current.status == Some(desired) { return Nil, spoiler; }

    current := current.(status := Some(desired));
    ghost var before := server.store;
    var reply := Send(server, c, got.found, PutStatus(key, current), write, from);
    WriteIsAccepted(before, c);
    if reply.Conflict? {
      ghost var n :| |old(server.log)| <= n < |server.log| && ForeignCommit(server.log[n], key);
      spoiler := n;
    }
    result := if reply.Ok? then Nil else Refused(reply);
  }

  method UpdateStatusRetry(server: Server<Main, Tree>, key: Key, desired: Tree, schedule: seq<seq<Req>>)
    returns (result: Result, ghost spoilers: seq<nat>)
    requires server.Valid()
    modifies server
    ensures server.Valid() && old(server.log) <= server.log
    ensures Linearised(server.log, |old(server.log)|, StatusUpdate(key, Some(desired)), result)
    ensures !result.Vanished? && Justified(server.log, |old(server.log)|, key, result, spoilers)
    ensures schedule == [] ==>
              && result == (if key in old(server.store).objects then Nil else Refused(NotFound))
              && server.store == Atomic(StatusUpdate(key, Some(desired)), old(server.store))
  {
    hide Instant, Atomic, ForeignCommit, RefusedWith, Overtaken;
    ghost var from := |server.log|;
    spoilers := [];
    NobodyYet(server.log, key);
    result := Nil;
    for attempt := 0 to ATTEMPTS
      invariant server.Valid() && old(server.log) <= server.log
      invariant Silent(server.log, from, -1) && Overtaken(server.log, from, key, spoilers) && |spoilers| == attempt
      invariant attempt == 0 ==> server.store == old(server.store)
      invariant attempt > 0 ==>
                  schedule != [] && Attempted(server.log, from, key, result) && result == Refused(Conflict)
    {
      ghost var before, spoiler := server.log, 0;
      result, spoiler := TryStatus(server, key, desired, At(schedule, 2 * attempt), At(schedule, 2 * attempt + 1),
                                   from);
      OvertakenLasts(before, server.log, from, key, spoilers);
      if result != Refused(Conflict) { return; }
      spoilers := spoilers + [spoiler];
    }
  }

  function UpdateCall(key: Key, main: Main, version: Option<nat>): Call {
    if version.None? then SpecUpdate(key, main) else VersionedUpdate(key, main, version.value)
  }

  /** Update: the retry loop without a version, a single write with one; then the object is read back. */
  method Update(server: Server<Main, Tree>, key: Key, main: Main, version: Option<nat>, schedule: seq<seq<Req>>)
    returns (result: Result, ghost spoilers: seq<nat>)
    requires server.Valid()
    modifies server
    ensures server.Valid() && old(server.log) <= server.log
    ensures Linearised(server.log, |old(server.log)|, UpdateCall(key, main, version), result)
    ensures result.Refused? ==> RefusedWith(server.log, |old(server.log)|, key, result.reply)
    ensures version.None? ==> Justified(server.log, |old(server.log)|, key, result, spoilers)
    ensures result != Lost && (!result.Refused? ==> (result.Nil? <==> key in server.store.objects))
    ensures schedule == [] ==>
              && server.store == Atomic(UpdateCall(key, main, version), old(server.store))
              && (result == Refused(NotFound) <==> key !in old(server.store).objects)
              && (result == Refused(Conflict) <==>
                    key in old(server.store).objects && version.Some?
                    && old(server.store).objects[key].version != version.value)
              && (result.Refused? ==> result.reply in {NotFound, Conflict})
  {
    hide Instant, Atomic, ForeignCommit, RefusedWith, Overtaken, Handle;
    ghost var from := |server.log|;
    ghost var c := UpdateCall(key, main, version);
    spoilers := [];
    if version.None? {
      result, spoilers := UpdateMetadataAndSpecRetry(server, key, main, schedule);
      if result.Refused? { return; }
    } else {
      var sent: Obj := Object(0, main, [], None, false, version.value);
      var put := Send(server, c, sent, Put(key, sent), At(schedule, 0), from);
      VersionedAlone(old(server.store), key, main, version.value);
      if !put.Ok? { return Refused(put), spoilers; }
    }
    ghost var before := server.log;
    assert exists n :: Instant(before, from, c, n);
    result := ReadBack(server, key, At(schedule, 2 * ATTEMPTS));
    LogGrows(before, server.log, from, c);
    Undisturbed(server.store, SpecUpdate(key, main));
  }

  /** The versioned write on its own. */
  lemma VersionedAlone(s: Db, key: Key, main: Main, version: nat)
    ensures Served(s, []) == s
    ensures var answer := Handle(s, Put(key, Object(0, main, [], None, false, version)));
            && answer.store == Atomic(VersionedUpdate(key, main, version), s)
            && (answer.reply == NotFound <==> key !in s.objects)
            && (answer.reply == Conflict <==> key in s.objects && s.objects[key].version != version)
            && (answer.reply.Ok? || answer.reply == NotFound || answer.reply == Conflict)
  {
  }

  method ReadBack(server: Server<Main, Tree>, key: Key, requests: seq<Req>) returns (result: Result)
    requires server.Valid()
    modifies server
    ensures server.Valid() && GoesOnSilently(old(server.log), server.log)
    ensures server.store == Served(old(server.store), requests)
    ensures result == if key in server.store.objects then Nil else Vanished
  {
    server.Interfere(requests);
    var confirmed := server.Serve(Get(key), Self);
    result := if confirmed.Ok? then Nil else Vanished;
  }
}
