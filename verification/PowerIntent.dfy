/**
  Power operations on instances: a bounded read-modify-write loop against the version-checked store,
  with other clients at work between any two of its requests.
 */
module PowerIntent {
  import opened Prelude
  import opened ApiServer

  type Tree = string

  // The stored half a power request may write: everything the API shows (spec, labels, common data)
  // as one opaque body, and the annotations that carry the power intent.
  datatype Main = Main(body: Tree, annotations: map<string, string>)
  datatype Status = Status(state: string, powerState: string)

  type Obj = Object<Main, Status>
  type Db = Store<Main, Status>
  type Req = Request<Main, Status>
  type Log = seq<Entry<Main, Status>>

  const ON := "on"
  const OFF := "off"
  const ACTIVE := "active"
  const PENDING := "pending"
  const RESTART_POWER_OFF := "power-off"

  const DESIRED_POWER_STATE := "secapi.cloud/desired-power-state"
  const RESTART_ID := "secapi.cloud/restart-id"
  const RESTART_PHASE := "secapi.cloud/restart-phase"

  const MAX_ATTEMPTS: nat := 5

  // ---------- the domain view of an instance ----------

  datatype Intent = Intent(desiredPowerState: string, restartId: string, restartPhase: string)
  datatype Instance = Instance(body: Tree, intent: Intent, status: Status, version: nat)

  function Lookup(m: map<string, string>, key: string): string {
    if key in m then m[key] else ""
  }

  function FromCR(o: Obj): Instance {
    Instance(
      o.main.body,
      Intent(
        Lookup(o.main.annotations, DESIRED_POWER_STATE),
        Lookup(o.main.annotations, RESTART_ID),
        Lookup(o.main.annotations, RESTART_PHASE)),
      if o.status.Some? then o.status.value else Status(PENDING, ""),
      o.version)
  }

  function SetAnnotation(m: map<string, string>, key: string, value: string): map<string, string> {
    if value == "" then m else m[key := value]
  }

  /** The object sent to the store. It has no finalizers and no annotations but the intent. */
  function ToCR(i: Instance): Obj {
    var a := SetAnnotation(map[], DESIRED_POWER_STATE, i.intent.desiredPowerState);
    var b := SetAnnotation(a, RESTART_ID, i.intent.restartId);
    var c := SetAnnotation(b, RESTART_PHASE, i.intent.restartPhase);
    Object(0, Main(i.body, c), [], Some(i.status), false, i.version)
  }

  lemma ConversionRoundTrip(i: Instance)
    ensures FromCR(ToCR(i)) == i
  {
    assert DESIRED_POWER_STATE[13] != RESTART_ID[13];
    assert DESIRED_POWER_STATE[13] != RESTART_PHASE[13];
    assert RESTART_ID[21] != RESTART_PHASE[21];
  }

  predicate IsActive(i: Instance) {
    i.status.state == ACTIVE
  }

  function CurrentPowerState(i: Instance): string {
    if i.status.powerState == "" then OFF else i.status.powerState
  }

  // ---------- what one write does ----------

  /** The result of writing instance `i` over the stored object: a version-checked replacement. */
  lemma WriteReplaces(s: Db, key: Key, i: Instance)
    requires Consistent(s) && Handle(s, Put(key, ToCR(i))).reply.Ok?
    ensures key in s.objects && s.objects[key].version == i.version
    ensures var live, after := s.objects[key], Handle(s, Put(key, ToCR(i))).store.objects;
            && (key in after <==> !live.deleting)
            && (key in after ==>
                  && FromCR(after[key]) == Instance(i.body, i.intent, FromCR(live).status, s.revision + 1)
                  && after[key].uid == live.uid
                  && (after[key].finalizers == live.finalizers <==> live.finalizers == []))
            && after - {key} == s.objects - {key}
  {
    ConversionRoundTrip(i);
  }

  /**
    The one write of a power request: made on a version that is active and in the required power
    state, and changing nothing of the instance but its intent. Beyond the instance as the API shows
    it, the write drops every finalizer, and an object under deletion disappears with the last one.
   */
  ghost predicate IntentWrite(e: Entry<Main, Status>, key: Key, intent: Intent, requiredPower: string) {
    && key in e.before.objects
    && var live := e.before.objects[key];
    && IsActive(FromCR(live)) && CurrentPowerState(FromCR(live)) == requiredPower
    && (key in e.after.objects <==> !live.deleting)
    && (key in e.after.objects ==>
          && FromCR(e.after.objects[key]) == FromCR(live).(intent := intent, version := e.after.revision)
          && (e.after.objects[key].finalizers == live.finalizers <==> live.finalizers == []))
    && e.after.objects - {key} == e.before.objects - {key}
  }

  /** A write of instance `i`, whatever the stored object holds apart from its version. */
  ghost predicate Overwrite(e: Entry<Main, Status>, key: Key, i: Instance) {
    && key in e.before.objects
    && var live := e.before.objects[key];
    && live.version == i.version
    && (key in e.after.objects <==> !live.deleting)
    && (key in e.after.objects ==>
          && FromCR(e.after.objects[key]) == Instance(i.body, i.intent, FromCR(live).status, e.after.revision)
          && (e.after.objects[key].finalizers == live.finalizers <==> live.finalizers == []))
    && e.after.objects - {key} == e.before.objects - {key}
  }

  /** An intent write, exactly if the stored body is the one sent and the checks hold on what is stored. */
  lemma OverwriteIsIntentWriteIff(e: Entry<Main, Status>, key: Key, i: Instance, requiredPower: string)
    requires Overwrite(e, key, i)
    ensures var live := e.before.objects[key];
            IntentWrite(e, key, i.intent, requiredPower) <==>
            && (live.deleting || live.main.body == i.body)
            && IsActive(FromCR(live)) && CurrentPowerState(FromCR(live)) == requiredPower
  {
  }

  ghost predicate OverwroteAt(log: Log, from: nat, key: Key, i: Instance, n: int) {
    && from <= n < |log| && log[n].actor == Self
    && Overwrite(log[n], key, i) && Silent(log, from, n)
  }

  ghost predicate WroteOnce(log: Log, from: nat, key: Key, intent: Intent, requiredPower: string) {
    exists n :: WroteAt(log, from, key, intent, requiredPower, n)
  }

  ghost predicate WroteAt(log: Log, from: nat, key: Key, intent: Intent, requiredPower: string, n: int) {
    && from <= n < |log| && log[n].actor == Self
    && IntentWrite(log[n], key, intent, requiredPower) && Silent(log, from, n)
  }

  datatype Response =
    | Accepted
    | NotFoundError
    | NotActive
    | WrongPowerState
    | VersionConflict           // every attempt ran into a concurrent change
    | Rejected                  // any other refusal of the store
    | GoneAfterWrite            // written, but the object was gone when it was read back

  // What the stored object shows, in its own terms.

  predicate ShowsActive(o: Obj) {
    o.status.Some? && o.status.value.state == "active"
  }

  function ShowsPower(o: Obj): string {
    if o.status.None? || o.status.value.powerState == "" then "off" else o.status.value.powerState
  }

  lemma ShownIsChecked(o: Obj)
    ensures IsActive(FromCR(o)) <==> ShowsActive(o)
    ensures CurrentPowerState(FromCR(o)) == ShowsPower(o)
  {
  }

  /** The object can be operated on: it is there, active and in the required power state. */
  predicate Ready(s: Db, key: Key, requiredPower: string) {
    key in s.objects && ShowsActive(s.objects[key]) && ShowsPower(s.objects[key]) == requiredPower
  }

  /** The last request was the call's own read of the object, and found it. */
  ghost predicate ReadBack(log: Log, key: Key) {
    && log != []
    && var last := log[|log| - 1];
       last.actor == Self && last.request == Get(key) && key in last.before.objects
  }

  /** A write is accepted once it is read back, and refused as the store refused the last request. */
  ghost predicate Answered(log: Log, from: nat, key: Key, response: Response) {
    if response.Accepted? then ReadBack(log, key)
    else RefusedWith(log, from, key, if response.VersionConflict? then Conflict else NotFound)
  }

  /** Every response is what the request's own last request found. */
  ghost predicate Reasoned(log: Log, from: nat, key: Key, requiredPower: string, response: Response) {
    && from < |log|
    && var last := log[|log| - 1];
       match response
       case Accepted => ReadBack(log, key)
       case GoneAfterWrite => RefusedWith(log, from, key, NotFound)
       case NotFoundError => RefusedWith(log, from, key, NotFound)
       case NotActive =>
         && last.actor == Self && last.request == Get(key)
         && key in last.before.objects && !ShowsActive(last.before.objects[key])
       case WrongPowerState =>
         && last.actor == Self && last.request == Get(key)
         && key in last.before.objects && ShowsActive(last.before.objects[key])
         && ShowsPower(last.before.objects[key]) != requiredPower
       case VersionConflict => RefusedWith(log, from, key, Conflict)
       case Rejected => false
  }

  ghost predicate Result(log: Log, from: nat, key: Key, intent: Intent, requiredPower: string, response: Response) {
    if response.Accepted? || response.GoneAfterWrite? then WroteOnce(log, from, key, intent, requiredPower)
    else Silent(log, from, -1)
  }

  /** Requests that change nothing keep what is known about a log. */
  lemma LogGrows(log: Log, longer: Log, from: nat)
    requires from <= |log| && GoesOnSilently(log, longer)
    ensures Silent(log, from, -1) ==> Silent(longer, from, -1)
    ensures forall key, intent, power :: WroteOnce(log, from, key, intent, power) ==>
              WroteOnce(longer, from, key, intent, power)
    ensures forall key, i, n :: OverwroteAt(log, from, key, i, n) ==> OverwroteAt(longer, from, key, i, n)
    ensures forall key, spoilers :: Overtaken(log, from, key, spoilers) ==> Overtaken(longer, from, key, spoilers)
  {
    hide IntentWrite, Overwrite, ForeignCommit;
    assert forall n :: 0 <= n < |log| ==> longer[n] == log[n];
    forall key, intent, power, n | WroteAt(log, from, key, intent, power, n)
      ensures WroteAt(longer, from, key, intent, power, n)
    {
    }
  }

  method Load(server: Server<Main, Status>, key: Key, requests: seq<Req>, ghost from: nat)
    returns (reply: Reply<Main, Status>)
    requires server.Valid() && from <= |server.log| && Silent(server.log, from, -1)
    modifies server
    ensures server.Valid() && old(server.log) <= server.log && Silent(server.log, from, -1)
    ensures reply.Ok? ==> Snapshot(server.store, key, reply.found) && ObjectAt(server.store, key) == Some(reply.found)
    ensures from < |server.log| && server.log[|server.log| - 1] == Entry(Self, Get(key), server.store, server.store)
    ensures reply.Ok? <==> key in server.store.objects
    ensures !reply.Ok? ==> reply == NotFound && RefusedWith(server.log, from, key, NotFound)
    ensures server.store == Served(old(server.store), requests)
  {
    server.Interfere(requests);
    LogGrows(old(server.log), server.log, from);
    ghost var before := server.log;
    reply := server.Serve(Get(key), Self);
    LogGrows(before, server.log, from);
  }

  /** One write under the version of `i`. */
  method PutOnce(server: Server<Main, Status>, key: Key, i: Instance, ghost base: Obj, requests: seq<Req>,
                 ghost from: nat)
    returns (response: Response, ghost spoiler: nat)
    requires server.Valid() && from <= |server.log| && Silent(server.log, from, -1)
    requires Snapshot(server.store, key, base) && ObjectAt(server.store, key) == Some(base)
    modifies server
    ensures server.Valid() && old(server.log) <= server.log
    ensures if response.Accepted? then OverwroteAt(server.log, from, key, i, |server.log| - 1)
                                       && Snapshot(server.log[|server.log| - 1].before, key, base)
            else Silent(server.log, from, -1)
    ensures response in {Accepted, VersionConflict, NotFoundError}
    ensures !response.Accepted? ==>
              RefusedWith(server.log, from, key, if response.VersionConflict? then Conflict else NotFound)
    ensures var answer := Handle(Served(old(server.store), requests), Put(key, ToCR(i)));
            server.store == answer.store && (response.Accepted? <==> answer.reply.Ok?)
    ensures i.version < base.version ==> response in {VersionConflict, NotFoundError}
    ensures i.version == base.version && response.VersionConflict? ==>
              |old(server.log)| <= spoiler < |server.log| && ForeignCommit(server.log[spoiler], key)
  {
    server.Interfere(requests);
    LogGrows(old(server.log), server.log, from);
    ghost var before, store := server.log, server.store;
    hide FromCR, ToCR;
    var put := server.Serve(Put(key, ToCR(i)), Self);
    spoiler := 0;
    SentVersion(i);
    if put.Ok? {
      hide Handle;
      PutOverwrites(store, key, i);
      assert server.log[|before|] == Entry(Self, Put(key, ToCR(i)), store, server.store);
      assert Silent(before, from, -1);
      return Accepted, 0;
    }
    LogGrows(before, server.log, from);
    response := if put.Conflict? then VersionConflict else if put.NotFound? then NotFoundError else Rejected;
    if put.Conflict? && i.version == base.version {
      ghost var n :| |old(server.log)| <= n < |before| && ForeignCommit(before[n], key);
      spoiler := n;
      assert server.log[n] == before[n];
    }
  }

  /** With no one in between, the version that was loaded is accepted. */
  lemma LoadedVersionIsAccepted(s: Db, key: Key, i: Instance)
    requires key in s.objects && s.objects[key].version == i.version
    ensures Served(s, []) == s && Handle(s, Put(key, ToCR(i))).reply.Ok?
  {
    SentVersion(i);
    hide ToCR;
  }

  lemma SentVersion(i: Instance)
    ensures ToCR(i).version == i.version && ToCR(i).finalizers == []
  {
  }

  lemma PutOverwrites(s: Db, key: Key, i: Instance)
    requires Consistent(s) && Handle(s, Put(key, ToCR(i))).reply.Ok?
    ensures Overwrite(Entry(Self, Put(key, ToCR(i)), s, Handle(s, Put(key, ToCR(i))).store), key, i)
  {
    WriteReplaces(s, key, i);
    SentVersion(i);
  }

  /** Reading back tells whether the object is still there; what was written stays written. */
  method Confirm(server: Server<Main, Status>, key: Key, requests: seq<Req>) returns (response: Response)
    requires server.Valid()
    modifies server
    ensures server.Valid() && GoesOnSilently(old(server.log), server.log)
    ensures server.store == Served(old(server.store), requests)
    ensures response == if key in server.store.objects then Accepted else GoneAfterWrite
    ensures response.Accepted? ==> ReadBack(server.log, key)
    ensures response.GoneAfterWrite? ==> RefusedWith(server.log, |old(server.log)|, key, NotFound)
  {
    server.Interfere(requests);
    var got := server.Serve(Get(key), Self);
    response := if got.Ok? then Accepted else GoneAfterWrite;
  }

  /**
    The versioned Update: one write with the version of `i`, then the object is read back. `base` is
    the object the instance was loaded from. Under its version the write is an intent write; under an
    older one there is no write.
   */
  method Update(server: Server<Main, Status>, key: Key, i: Instance, ghost base: Obj, requiredPower: string,
                requests: seq<Req>, readBack: seq<Req>, ghost from: nat)
    returns (response: Response, ghost spoiler: nat)
    requires server.Valid() && from <= |server.log| && Silent(server.log, from, -1)
    requires Snapshot(server.store, key, base) && ObjectAt(server.store, key) == Some(base)
    requires FromCR(base).(intent := i.intent, version := i.version) == i
    requires IsActive(i) && CurrentPowerState(i) == requiredPower
    modifies server
    ensures server.Valid() && old(server.log) <= server.log
    ensures response in {Accepted, GoneAfterWrite, VersionConflict, NotFoundError}
    ensures Answered(server.log, from, key, response)
    ensures var answer := Handle(Served(old(server.store), requests), Put(key, ToCR(i)));
            && (response in {Accepted, GoneAfterWrite} <==> answer.reply.Ok?)
            && (answer.reply.Ok? ==> server.store == Served(answer.store, readBack))
    ensures if response in {Accepted, GoneAfterWrite} then exists n :: OverwroteAt(server.log, from, key, i, n)
            else Silent(server.log, from, -1)
    ensures i.version == base.version ==> Result(server.log, from, key, i.intent, requiredPower, response)
    ensures i.version < base.version ==> response in {VersionConflict, NotFoundError}
    ensures i.version == base.version && response.VersionConflict? ==>
              |old(server.log)| <= spoiler < |server.log| && ForeignCommit(server.log[spoiler], key)
  {
    hide Overwrite, IntentWrite;
    response, spoiler := PutOnce(server, key, i, base, requests, from);
    if !response.Accepted? {
      return;
    }
    ghost var written := server.log;
    assert OverwroteAt(written, from, key, i, |written| - 1);
    if i.version == base.version {
      OwnVersionIsIntentWrite(written, from, key, i, base, requiredPower);
    }
    response := Confirm(server, key, readBack);
    LogGrows(written, server.log, from);
    assert OverwroteAt(server.log, from, key, i, |written| - 1);
  }

  /** Under the loaded version, what is stored at the write is what was loaded and checked. */
  lemma OwnVersionIsIntentWrite(log: Log, from: nat, key: Key, i: Instance, base: Obj, requiredPower: string)
    requires log != [] && OverwroteAt(log, from, key, i, |log| - 1) && Snapshot(log[|log| - 1].before, key, base)
    requires i.version == base.version && FromCR(base).(intent := i.intent) == i
    requires IsActive(i) && CurrentPowerState(i) == requiredPower
    ensures WroteOnce(log, from, key, i.intent, requiredPower)
  {
    OverwriteIsIntentWriteIff(log[|log| - 1], key, i, requiredPower);
    assert WroteAt(log, from, key, i.intent, requiredPower, |log| - 1);
  }

  /** Reload, check, overlay, write. */
  method AttemptOnce(server: Server<Main, Status>, key: Key, intent: Intent, requiredPower: string,
                     read: seq<Req>, write: seq<Req>, back: seq<Req>, ghost from: nat)
    returns (response: Response, ghost spoiler: nat)
    requires server.Valid() && from <= |server.log| && Silent(server.log, from, -1)
    modifies server
    ensures server.Valid() && old(server.log) <= server.log
    ensures Result(server.log, from, key, intent, requiredPower, response)
    ensures Reasoned(server.log, from, key, requiredPower, response)
    ensures response.VersionConflict? ==>
              |old(server.log)| <= spoiler < |server.log| && ForeignCommit(server.log[spoiler], key)
    ensures read == [] && write == [] && Ready(old(server.store), key, requiredPower) ==>
              response in {Accepted, GoneAfterWrite}
  {
    hide Handle, Served, ToCR, OverwroteAt, WroteOnce, ForeignCommit, RefusedWith, ShowsActive, ShowsPower;
    spoiler := 0;
    if key in server.store.objects {
      LoadedVersionIsAccepted(server.store, key, FromCR(server.store.objects[key]).(intent := intent));
    }
    var got := Load(server, key, read, from);
    if got.Ok? {
      ShownIsChecked(got.found);
    }
    if !got.Ok? { return NotFoundError, spoiler; }
    var latest := FromCR(got.found);
    if !IsActive(latest) { return NotActive, spoiler; }
    if CurrentPowerState(latest) != requiredPower { return WrongPowerState, spoiler; }

    latest := latest.(intent := latest.intent.(desiredPowerState := intent.desiredPowerState));
    latest := latest.(intent := latest.intent.(restartId := intent.restartId));
    latest := latest.(intent := latest.intent.(restartPhase := intent.restartPhase));

    response, spoiler := Update(server, key, latest, got.found, requiredPower, write, back, from);
    UpdateIsReasoned(server.log, from, key, requiredPower, response);
  }

  lemma UpdateIsReasoned(log: Log, from: nat, key: Key, requiredPower: string, response: Response)
    requires response in {Accepted, GoneAfterWrite, VersionConflict, NotFoundError} && from < |log|
    requires Answered(log, from, key, response)
    ensures Reasoned(log, from, key, requiredPower, response)
  {
  }

  /** The loop of a request without a precondition. */
  method ApplyPowerIntent(server: Server<Main, Status>, key: Key, intent: Intent, requiredPower: string,
                          schedule: seq<seq<Req>>)
    returns (response: Response, ghost spoilers: seq<nat>)
    requires server.Valid()
    modifies server
    ensures server.Valid() && old(server.log) <= server.log
    ensures Result(server.log, |old(server.log)|, key, intent, requiredPower, response)
    ensures Reasoned(server.log, |old(server.log)|, key, requiredPower, response)
    ensures schedule == [] && Ready(old(server.store), key, requiredPower) ==> response in {Accepted, GoneAfterWrite}
    ensures response.VersionConflict? ==> |spoilers| == MAX_ATTEMPTS
    ensures Overtaken(server.log, |old(server.log)|, key, spoilers)
  {
    hide WroteOnce, Overtaken, ForeignCommit, Reasoned, Ready;
    ghost var from := |server.log|;
    spoilers := [];
    NobodyYet(server.log, key);
    response := Accepted;
    for attempt := 0 to MAX_ATTEMPTS
      invariant server.Valid() && old(server.log) <= server.log
      invariant Silent(server.log, from, -1)
      invariant |spoilers| == attempt && Overtaken(server.log, from, key, spoilers)
      invariant attempt == 0 ==> server.store == old(server.store)
      invariant attempt > 0 ==>
                  && response.VersionConflict? && Reasoned(server.log, from, key, requiredPower, response)
                  && !(schedule == [] && Ready(old(server.store), key, requiredPower))
    {
      ghost var before, spoiler := server.log, 0;
      response, spoiler := AttemptOnce(server, key, intent, requiredPower, At(schedule, 3 * attempt),
                                       At(schedule, 3 * attempt + 1), At(schedule, 3 * attempt + 2), from);
      OvertakenLasts(before, server.log, from, key, spoilers);
      if !response.VersionConflict? { return; }
      spoilers := spoilers + [spoiler];
    }
  }

  // ---------- the three operations ----------

  datatype Operation = Start | Stop | Restart(id: string)

  function RequiredPower(op: Operation): string {
    if op.Start? then OFF else ON
  }

  /** The intent the operation stamps on the instance it loaded first. */
  function Stamp(op: Operation, i: Intent): Intent {
    match op
    case Start => i.(desiredPowerState := ON)
    case Stop => i.(desiredPowerState := OFF)
    case Restart(id) => i.(restartId := id, restartPhase := RESTART_POWER_OFF)
  }

  /**
    The loop overlays the intent of the first load on the version it reloaded. That is the operation
    applied to the reloaded intent exactly when nobody changed, in between, the part of the intent
    the operation does not set itself; otherwise it puts the older part back.
   */
  lemma OverlayIsFreshIff(op: Operation, first: Intent, reloaded: Intent)
    ensures Stamp(op, first) == Stamp(op, reloaded) <==>
            if op.Restart? then first.desiredPowerState == reloaded.desiredPowerState
            else first.restartId == reloaded.restartId && first.restartPhase == reloaded.restartPhase
  {
  }

  function Annotation(o: Obj, key: string): string {
    if key in o.main.annotations then o.main.annotations[key] else ""
  }

  /** What an operation leaves on the object, in its own terms: the rest of the intent is as first loaded. */
  predicate StampedOn(op: Operation, after: Obj, first: Obj) {
    var desired := "secapi.cloud/desired-power-state";
    var id, phase := "secapi.cloud/restart-id", "secapi.cloud/restart-phase";
    match op
    case Start =>
      && Annotation(after, desired) == "on"
      && Annotation(after, id) == Annotation(first, id) && Annotation(after, phase) == Annotation(first, phase)
    case Stop =>
      && Annotation(after, desired) == "off"
      && Annotation(after, id) == Annotation(first, id) && Annotation(after, phase) == Annotation(first, phase)
    case Restart(given) =>
      && Annotation(after, desired) == Annotation(first, desired)
      && Annotation(after, id) == given && Annotation(after, phase) == "power-off"
  }

  /** Starting is for what is off, stopping and restarting for what is on. */
  predicate MayOperate(op: Operation, live: Obj) {
    ShowsActive(live) && ShowsPower(live) == if op.Start? then "off" else "on"
  }

  /** The write of an operation: whether it was made on an object that may be operated on, and what it left. */
  ghost predicate OperatedAt(log: Log, from: nat, key: Key, op: Operation, first: Obj, checked: bool, n: int) {
    && from <= n < |log| && log[n].actor == Self && Silent(log, from, n)
    && key in log[n].before.objects
    && (checked ==> MayOperate(op, log[n].before.objects[key]))
    && (key in log[n].after.objects ==> StampedOn(op, log[n].after.objects[key], first))
  }

  ghost predicate Operated(log: Log, from: nat, key: Key, op: Operation, first: Obj, checked: bool) {
    exists n :: OperatedAt(log, from, key, op, first, checked, n)
  }

  lemma IntentOf(after: Obj, first: Obj, op: Operation)
    requires FromCR(after).intent == Stamp(op, FromCR(first).intent)
    ensures StampedOn(op, after, first)
  {
  }

  lemma WroteIsOperated(log: Log, from: nat, key: Key, op: Operation, first: Obj, n: int)
    requires WroteAt(log, from, key, Stamp(op, FromCR(first).intent), RequiredPower(op), n)
    ensures OperatedAt(log, from, key, op, first, true, n)
  {
    ShownIsChecked(log[n].before.objects[key]);
    if key in log[n].after.objects {
      IntentOf(log[n].after.objects[key], first, op);
    }
    hide FromCR, StampedOn;
  }

  lemma OverwroteIsOperated(log: Log, from: nat, key: Key, op: Operation, first: Obj, i: Instance, n: int)
    requires OverwroteAt(log, from, key, i, n) && i.intent == Stamp(op, FromCR(first).intent)
    ensures OperatedAt(log, from, key, op, first, false, n)
  {
    if key in log[n].after.objects {
      IntentOf(log[n].after.objects[key], first, op);
    }
    hide FromCR, StampedOn;
  }

  function LoadedFrom(s: Db, key: Key): Option<Instance> {
    if key in s.objects then Some(FromCR(s.objects[key])) else None
  }

  /**
    A request as a whole. Without a precondition it is the retry loop. With one it is a single write of
    the first loaded instance under the client's version: an intent write if that is the version that
    was loaded, nothing if it is older. If it is newer, the loaded body goes over whatever has that version.
   */
  method HandleRequest(server: Server<Main, Status>, key: Key, op: Operation, version: Option<nat>,
                       first: seq<Req>, schedule: seq<seq<Req>>)
    returns (response: Response, ghost loaded: Option<Obj>, ghost spoilers: seq<nat>)
    requires server.Valid()
    modifies server
    ensures server.Valid() && old(server.log) <= server.log
    ensures loaded == ObjectAt(Served(old(server.store), first), key)
    ensures loaded.None? ==> response.NotFoundError?
    // Every refusal has its reason, and changed nothing.
    ensures Reasoned(server.log, |old(server.log)|, key, if op.Start? then "off" else "on", response)
    ensures response in {Accepted, GoneAfterWrite} || Silent(server.log, |old(server.log)|, -1)
    ensures version.None? && response.VersionConflict? ==>
              |spoilers| == MAX_ATTEMPTS && Overtaken(server.log, |old(server.log)|, key, spoilers)
    ensures schedule == [] && loaded.Some? && MayOperate(op, loaded.value)
              && (version.None? || version.value == loaded.value.version) ==>
                response in {Accepted, GoneAfterWrite}
    // An accepted one was written once, as the operation wants it.
    ensures loaded.Some? && response in {Accepted, GoneAfterWrite} ==>
              var checked := version.None? || version.value == loaded.value.version;
              && MayOperate(op, loaded.value)
              && Operated(server.log, |old(server.log)|, key, op, loaded.value, checked)
    ensures loaded.Some? && (version.None? || version.value == loaded.value.version) ==>
              var intent := Stamp(op, FromCR(loaded.value).intent);
              Result(server.log, |old(server.log)|, key, intent, RequiredPower(op), response)
    // With a version it is one write of what was loaded.
    ensures loaded.Some? && version.Some? && version.value < loaded.value.version ==>
              response in {NotActive, WrongPowerState, VersionConflict, NotFoundError}
    ensures loaded.Some? && version.Some? && response in {Accepted, GoneAfterWrite} ==>
              exists n :: OverwroteAt(server.log, |old(server.log)|, key, ToSend(op, loaded.value, version.value), n)
    ensures version.Some? && loaded.Some? && MayOperate(op, loaded.value) ==>
              var mid := Served(Served(old(server.store), first), At(schedule, 0));
              var answer := Handle(mid, Put(key, ToCR(ToSend(op, loaded.value, version.value))));
              && (response in {Accepted, GoneAfterWrite} <==> answer.reply.Ok?)
              && (answer.reply.Ok? ==> server.store == Served(answer.store, At(schedule, 1)))
  {
    hide Overwrite, IntentWrite, OverwroteAt, OperatedAt, Handle, Served, ToCR, Stamp, ForeignCommit, RefusedWith;
    hide ShowsActive, ShowsPower, Overtaken, Operated;
    ghost var from := |server.log|;
    loaded, spoilers := None, [];
    var got := Load(server, key, first, from);
    if !got.Ok? { return NotFoundError, loaded, spoilers; }
    var inst := FromCR(got.found);
    loaded := Some(got.found);
    ShownIsChecked(got.found);
    if !IsActive(inst) { return NotActive, loaded, spoilers; }
    if CurrentPowerState(inst) != RequiredPower(op) { return WrongPowerState, loaded, spoilers; }
    inst := inst.(intent := Stamp(op, inst.intent));
    ghost var n: nat, before := 0, server.log;
    if version.Some? {
      inst := inst.(version := version.value);
      LoadedVersionIsAccepted(server.store, key, inst.(version := got.found.version));
      SentIs(op, got.found, version.value);
      assert inst == ToSend(op, got.found, version.value);
      response, n := Update(server, key, inst, got.found, RequiredPower(op), At(schedule, 0), At(schedule, 1), from);
      UpdateIsReasoned(server.log, from, key, RequiredPower(op), response);
    } else {
      response, spoilers := ApplyPowerIntent(server, key, inst.intent, RequiredPower(op), schedule);
      ResultFromEarlier(before, server.log, from, key, inst.intent, RequiredPower(op), response);
      SinceEarlier(server.log, from, |before|, key, RequiredPower(op), response, spoilers);
    }
    if response in {Accepted, GoneAfterWrite} {
      RequestOperates(server.log, from, key, op, got.found, version, response);
    }
  }

  /** The instance a request with a version sends. */
  function ToSend(op: Operation, first: Obj, version: nat): Instance {
    FromCR(first).(intent := Stamp(op, FromCR(first).intent), version := version)
  }

  lemma SentIs(op: Operation, first: Obj, version: nat)
    ensures var i := FromCR(first);
            ToSend(op, first, version) == i.(intent := Stamp(op, i.intent)).(version := version)
  {
    hide FromCR, Stamp;
  }

  lemma SinceEarlier(log: Log, earlier: nat, from: nat, key: Key, requiredPower: string, response: Response,
                     spoilers: seq<nat>)
    requires earlier <= from && Reasoned(log, from, key, requiredPower, response) && Overtaken(log, from, key, spoilers)
    ensures Reasoned(log, earlier, key, requiredPower, response) && Overtaken(log, earlier, key, spoilers)
  {
    hide ForeignCommit;
  }

  lemma RequestOperates(log: Log, from: nat, key: Key, op: Operation, first: Obj, version: Option<nat>,
                        response: Response)
    requires response in {Accepted, GoneAfterWrite}
    requires version.None? || version.value == first.version ==>
               Result(log, from, key, Stamp(op, FromCR(first).intent), RequiredPower(op), response)
    requires version.Some? ==> exists n :: OverwroteAt(log, from, key, ToSend(op, first, version.value), n)
    ensures var checked := version.None? || version.value == first.version;
            Operated(log, from, key, op, first, checked)
  {
    hide OverwroteAt, OperatedAt, Stamp, FromCR, WroteAt;
    if version.None? || version.value == first.version {
      var intent := Stamp(op, FromCR(first).intent);
      var n :| WroteAt(log, from, key, intent, RequiredPower(op), n);
      WroteIsOperated(log, from, key, op, first, n);
    } else {
      var n :| OverwroteAt(log, from, key, ToSend(op, first, version.value), n);
      OverwroteIsOperated(log, from, key, op, first, ToSend(op, first, version.value), n);
    }
  }

  lemma ResultFromEarlier(before: Log, log: Log, from: nat, key: Key, intent: Intent, power: string, response: Response)
    requires from <= |before| && before <= log && Silent(before, from, -1)
    requires Result(log, |before|, key, intent, power, response)
    ensures Result(log, from, key, intent, power, response)
  {
    if response.Accepted? || response.GoneAfterWrite? {
      var n :| WroteAt(log, |before|, key, intent, power, n);
      assert WroteAt(log, from, key, intent, power, n);
    }
  }

  // ---------- ordinary updates ----------

  /**
    The instant of an ordinary update: the stored instance becomes what was sent, intent included, and
    nothing else changes; an object under deletion is left alone.
   */
  ghost predicate PutInstant(e: Entry<Main, Status>, key: Key, i: Instance) {
    && key in e.before.objects
    && var live := e.before.objects[key];
    if live.deleting then e.after == e.before
    else
      && key in e.after.objects
      && e.after.objects[key] == live.(main := ToCR(i).main, version := e.after.objects[key].version)
      && e.after.objects - {key} == e.before.objects - {key}
  }

  /** The instance was created with what was sent. */
  ghost predicate CreateInstant(e: Entry<Main, Status>, key: Key, i: Instance) {
    && key !in e.before.objects && key in e.after.objects
    && e.after.objects[key].main == ToCR(i).main && e.after.objects[key].finalizers == []
    && e.after.objects - {key} == e.before.objects - {key}
  }

  ghost predicate UpsertAt(log: Log, from: nat, key: Key, i: Instance, n: int) {
    && from <= n < |log| && log[n].actor == Self
    && (PutInstant(log[n], key, i) || CreateInstant(log[n], key, i)) && Silent(log, from, n)
  }

  lemma UpsertGrows(log: Log, longer: Log, from: nat, key: Key, i: Instance)
    requires from <= |log| && GoesOnSilently(log, longer)
    ensures forall n :: UpsertAt(log, from, key, i, n) ==> UpsertAt(longer, from, key, i, n)
  {
    hide PutInstant, CreateInstant;
    assert forall n :: 0 <= n < |log| ==> longer[n] == log[n];
  }

  /** The object is there and not under deletion. */
  predicate Stands(s: Db, key: Key) {
    key in s.objects && !s.objects[key].deleting
  }

  /** One attempt: read, replace the main half unless it is the same already, write. */
  method ReplaceOnce(server: Server<Main, Status>, key: Key, i: Instance, beforeRead: seq<Req>, beforeWrite: seq<Req>,
                     ghost from: nat)
    returns (response: Response, ghost spoiler: nat)
    requires server.Valid() && from <= |server.log| && Silent(server.log, from, -1)
    modifies server
    ensures server.Valid() && old(server.log) <= server.log
    ensures if response.Accepted?
              then UpsertAt(server.log, from, key, i, |server.log| - 1) else Silent(server.log, from, -1)
    ensures response in {Accepted, NotFoundError, VersionConflict}
    ensures !response.Accepted? ==> Answered(server.log, from, key, response)
    ensures response.VersionConflict? ==>
              |old(server.log)| <= spoiler < |server.log| && ForeignCommit(server.log[spoiler], key)
    ensures beforeRead == [] && beforeWrite == [] && Stands(old(server.store), key) ==>
              response.Accepted? && Stands(server.store, key) && server.store.objects[key].main == ToCR(i).main
  {
    hide ToCR, FromCR, Consistent, Overtaken;
    var got := Load(server, key, beforeRead, from);
    spoiler := 0;
    if !got.Ok? { return NotFoundError, spoiler; }
    var sent := got.found.(main := ToCR(i).main);
    if got.found.deleting || got.found == sent {
      return Accepted, spoiler;
    }
    response, spoiler := PutMain(server, key, sent, i, got.found, beforeWrite, from);
  }

  /** The write of an attempt: the object as it was read, with another main half. */
  method PutMain(server: Server<Main, Status>, key: Key, sent: Obj, i: Instance, ghost base: Obj, requests: seq<Req>,
                 ghost from: nat)
    returns (response: Response, ghost spoiler: nat)
    requires server.Valid() && from <= |server.log| && Silent(server.log, from, -1)
    requires Snapshot(server.store, key, base) && ObjectAt(server.store, key) == Some(base)
    requires !base.deleting && sent == base.(main := ToCR(i).main)
    modifies server
    ensures server.Valid() && old(server.log) <= server.log
    ensures if response.Accepted?
              then UpsertAt(server.log, from, key, i, |server.log| - 1) else Silent(server.log, from, -1)
    ensures response in {Accepted, NotFoundError, VersionConflict}
    ensures !response.Accepted? ==> Answered(server.log, from, key, response)
    ensures response.VersionConflict? ==>
              |old(server.log)| <= spoiler < |server.log| && ForeignCommit(server.log[spoiler], key)
    ensures requests == [] ==>
              response.Accepted? && Stands(server.store, key) && server.store.objects[key].main == ToCR(i).main
  {
    hide ToCR, FromCR, Consistent, Overtaken;
    server.Interfere(requests);
    LogGrows(old(server.log), server.log, from);
    ghost var before := server.log;
    var put := server.Serve(Put(key, sent), Self);
    spoiler := 0;
    if !put.Ok? {
      LogGrows(before, server.log, from);
      response := if put.Conflict? then VersionConflict else if put.NotFound? then NotFoundError else Rejected;
      if put.Conflict? {
        ghost var n :| |old(server.log)| <= n < |before| && ForeignCommit(before[n], key);
        spoiler := n;
        assert server.log[n] == before[n];
      }
      return;
    }
    assert Silent(before, from, -1);
    return Accepted, spoiler;
  }

  lemma RefusedSince(log: Log, earlier: nat, from: nat, key: Key, r: Reply<Main, Status>)
    requires earlier <= from
    ensures RefusedWith(log, from, key, r) ==> RefusedWith(log, earlier, key, r)
  {
  }

  /** An update without a version: at most five attempts, then the object is read back. */
  method Replace(server: Server<Main, Status>, key: Key, i: Instance, schedule: seq<seq<Req>>, ghost from: nat)
    returns (response: Response, ghost spoilers: seq<nat>)
    requires server.Valid() && from <= |server.log| && Silent(server.log, from, -1)
    modifies server
    ensures server.Valid() && old(server.log) <= server.log
    ensures if response in {Accepted, GoneAfterWrite} then exists n :: UpsertAt(server.log, from, key, i, n)
            else Silent(server.log, from, -1)
    ensures response in {Accepted, GoneAfterWrite, NotFoundError, VersionConflict}
    ensures Answered(server.log, from, key, response)
    ensures response.VersionConflict? ==> |spoilers| == MAX_ATTEMPTS
    ensures Overtaken(server.log, |old(server.log)|, key, spoilers)
    ensures schedule == [] && Stands(old(server.store), key) ==>
              response.Accepted? && Stands(server.store, key) && server.store.objects[key].main == ToCR(i).main
  {
    hide ToCR, UpsertAt, Overtaken, ForeignCommit, RefusedWith, ReadBack;
    ghost var start := |server.log|;
    response, spoilers := VersionConflict, [];
    NobodyYet(server.log, key);
    for attempt := 0 to MAX_ATTEMPTS
      invariant server.Valid() && old(server.log) <= server.log
      invariant response.VersionConflict? && Silent(server.log, from, -1)
      invariant |spoilers| == attempt && Overtaken(server.log, start, key, spoilers)
      invariant attempt > 0 ==>
                  Answered(server.log, from, key, response) && !(schedule == [] && Stands(old(server.store), key))
      invariant attempt == 0 ==> server.store == old(server.store)
    {
      ghost var before, spoiler := server.log, 0;
      response, spoiler := ReplaceOnce(server, key, i, At(schedule, 2 * attempt), At(schedule, 2 * attempt + 1), from);
      OvertakenLasts(before, server.log, start, key, spoilers);
      if response.Accepted? {
        ghost var written := server.log;
        response := Confirm(server, key, At(schedule, 2 * MAX_ATTEMPTS));
        UpsertGrows(written, server.log, from, key, i);
        assert UpsertAt(server.log, from, key, i, |written| - 1);
        OvertakenLasts(written, server.log, start, key, spoilers);
        RefusedSince(server.log, from, |written|, key, NotFound);
        return;
      }
      if !response.VersionConflict? { return; }
      spoilers := spoilers + [spoiler];
    }
  }

  lemma OvertakenSince(log: Log, earlier: nat, from: nat, key: Key, spoilers: seq<nat>)
    requires earlier <= from
    ensures Overtaken(log, from, key, spoilers) ==> Overtaken(log, earlier, key, spoilers)
  {
    hide ForeignCommit;
  }

  /**
    An ordinary request to create or update, without a precondition. The intent of the instance that
    was loaded first travels with it, empty if there was none.
   */
  method CreateOrUpdate(server: Server<Main, Status>, key: Key, body: Tree, first: seq<Req>, second: seq<Req>,
                        schedule: seq<seq<Req>>)
    returns (response: Response, ghost sent: Instance, ghost spoilers: seq<nat>)
    requires server.Valid()
    modifies server
    ensures server.Valid() && old(server.log) <= server.log
    ensures sent.body == body
    ensures exists n :: LoadedAt(server.log, |old(server.log)|, key, sent.intent, n)
    ensures if response in {Accepted, GoneAfterWrite}
            then exists n :: UpsertAt(server.log, |old(server.log)|, key, sent, n)
            else Silent(server.log, |old(server.log)|, -1)
    ensures var loaded := LoadedFrom(Served(old(server.store), first), key);
            sent.intent == if loaded.Some? then loaded.value.intent else Intent("", "", "")
    // Every refusal has its reason.
    ensures response in {Accepted, GoneAfterWrite, NotFoundError, VersionConflict}
    ensures !response.Accepted? ==> Answered(server.log, |old(server.log)|, key, response)
    ensures response.VersionConflict? ==>
              |spoilers| == MAX_ATTEMPTS && Overtaken(server.log, |old(server.log)|, key, spoilers)
    // What nobody disturbs is accepted, and stored.
    ensures key !in Served(Served(old(server.store), first), second).objects ==>
              response.Accepted? && Stands(server.store, key) && server.store.objects[key].main == ToCR(sent).main
    ensures schedule == [] && Stands(Served(Served(old(server.store), first), second), key) ==>
              response.Accepted? && Stands(server.store, key) && server.store.objects[key].main == ToCR(sent).main
  {
    hide ToCR, PutInstant, Served, Overtaken, ReadBack, RefusedWith;
    spoilers := [];
    ghost var from := |server.log|;
    var existing := Load(server, key, first, from);
    var desired := Instance(body, Intent("", "", ""), Status(PENDING, ""), 0);
    if existing.Ok? {
      desired := desired.(intent := FromCR(existing.found).intent);
    }
    sent := desired;
    ghost var read := |server.log| - 1;
    assert LoadedAt(server.log, from, key, sent.intent, read);
    ghost var loaded := server.log;
    server.Interfere(second);
    LogGrows(loaded, server.log, from);
    ghost var before := server.log;
    var made := server.Serve(Create(key, ToCR(desired).main, []), Self);
    if made.Ok? {
      assert Silent(before, from, -1);
      assert UpsertAt(server.log, from, key, sent, |before|);
      response := Accepted;
    } else {
      LogGrows(before, server.log, from);
      ghost var start := |server.log|;
      response, spoilers := Replace(server, key, desired, schedule, from);
      OvertakenSince(server.log, from, start, key, spoilers);
    }
    assert server.log[read] == loaded[read];
    assert LoadedAt(server.log, from, key, sent.intent, read);
  }

  /** The intent that the request's own first read found. */
  ghost predicate LoadedAt(log: Log, from: nat, key: Key, intent: Intent, n: int) {
    && from <= n < |log| && log[n].actor == Self && log[n].request == Get(key) && log[n].after == log[n].before
    && intent == if key in log[n].before.objects then FromCR(log[n].before.objects[key]).intent else Intent("", "", "")
  }

  /**
    What this means for a pending power operation: the update keeps the intent that is stored at its
    instant exactly if that is still the intent it loaded. An intent written in between is put back.
   */
  lemma UpdateKeepsIntentIff(e: Entry<Main, Status>, key: Key, i: Instance)
    requires PutInstant(e, key, i) && !e.before.objects[key].deleting
    ensures FromCR(e.after.objects[key]).intent == i.intent
    ensures FromCR(e.after.objects[key]).intent == FromCR(e.before.objects[key]).intent <==>
            FromCR(e.before.objects[key]).intent == i.intent
    ensures e.after.objects[key].finalizers == e.before.objects[key].finalizers
  {
    ConversionRoundTrip(i);
  }

  // ---------- two runs ----------

  /** A power operation of somebody else, on the version that is stored. */
  function Operate(o: Obj, key: Key, intent: Intent): Req {
    Put(key, ToCR(FromCR(o).(intent := intent)))
  }

  lemma OperationTakes(s: Db, key: Key, intent: Intent)
    requires Consistent(s) && Stands(s, key)
    ensures var after := Handle(s, Operate(s.objects[key], key, intent)).store;
            Stands(after, key) && FromCR(after.objects[key]).intent == intent
  {
    var i := FromCR(s.objects[key]).(intent := intent);
    ConversionRoundTrip(i);
  }

  lemma MainTellsIntent(o: Obj, i: Instance)
    requires o.main == ToCR(i).main
    ensures FromCR(o).intent == i.intent && FromCR(o).body == i.body
  {
    ConversionRoundTrip(i);
  }

  /**
    An ordinary update that has loaded the instance is overtaken by a power operation. It goes through,
    and the intent of before the operation is stored again.
   */
  method PutBackOldIntent(server: Server<Main, Status>, key: Key, body: Tree, newer: Intent)
    requires server.Valid() && Stands(server.store, key)
    requires newer != FromCR(server.store.objects[key]).intent
    modifies server
    ensures var operated := Handle(old(server.store), Operate(old(server.store).objects[key], key, newer)).store;
            Stands(operated, key) && FromCR(operated.objects[key]).intent == newer
    ensures Stands(server.store, key) && FromCR(server.store.objects[key]).body == body
    ensures FromCR(server.store.objects[key]).intent == FromCR(old(server.store).objects[key]).intent != newer
  {
    hide Handle, FromCR, ToCR, UpsertAt, LoadedAt, Operate;
    ghost var start := server.store;
    var operation := Operate(server.store.objects[key], key, newer);
    ServedOne(start, operation);
    OperationTakes(start, key, newer);
    var response, sent, _ := CreateOrUpdate(server, key, body, [], [operation], []);
    LoadedIntent(start, key);
    MainTellsIntent(server.store.objects[key], sent);
  }

  lemma LoadedIntent(s: Db, key: Key)
    requires key in s.objects
    ensures LoadedFrom(s, key) == Some(FromCR(s.objects[key]))
  {
  }

  /** Somebody else replaces the body, which gives the object the next version. */
  lemma EditTakes(s: Db, key: Key, body: Tree)
    requires Consistent(s) && Stands(s, key)
    ensures var after := Handle(s, Put(key, ToCR(FromCR(s.objects[key]).(body := body)))).store;
            && Consistent(after) && Stands(after, key)
            && after.objects[key].version == s.revision + 1 && FromCR(after.objects[key]).body == body
  {
    ConversionRoundTrip(FromCR(s.objects[key]).(body := body));
  }

  lemma OverwritingTakes(s: Db, key: Key, i: Instance)
    requires Consistent(s) && Stands(s, key) && s.objects[key].version == i.version
    ensures var answer := Handle(s, Put(key, ToCR(i)));
            answer.reply.Ok? && Stands(answer.store, key) && FromCR(answer.store.objects[key]).body == i.body
  {
    ConversionRoundTrip(i);
  }

  /**
    A client gives the version of an edit that its request has not loaded. The request is accepted, and
    puts the body it loaded over the edited one.
   */
  method OverwriteNewerBody(server: Server<Main, Status>, key: Key, op: Operation, body: Tree)
    requires server.Valid() && Stands(server.store, key)
    requires MayOperate(op, server.store.objects[key]) && body != FromCR(server.store.objects[key]).body
    modifies server
    ensures var i := FromCR(old(server.store).objects[key]);
            var edited := Handle(old(server.store), Put(key, ToCR(i.(body := body)))).store;
            Stands(edited, key) && FromCR(edited.objects[key]).body == body
    ensures Stands(server.store, key)
    ensures FromCR(server.store.objects[key]).body == FromCR(old(server.store).objects[key]).body != body
  {
    hide Handle, FromCR, ToCR, OverwroteAt, Operated, Stamp, MayOperate, Result, Reasoned, Overtaken;
    ghost var start := server.store;
    var i := FromCR(server.store.objects[key]);
    var edit := Put(key, ToCR(i.(body := body)));
    var version := server.store.revision + 1;
    ServedOne(start, edit);
    EditTakes(start, key, body);
    ghost var edited := Handle(start, edit).store;
    ghost var sent := i.(intent := Stamp(op, i.intent), version := version);
    OverwritingTakes(edited, key, sent);
    LoadedIntent(start, key);
    var response, loaded, _ := HandleRequest(server, key, op, Some(version), [], [[edit]]);
    ghost var answer := Handle(edited, Put(key, ToCR(sent)));
    ServedOne(answer.store, edit);
    assert server.store == answer.store;
  }
}
