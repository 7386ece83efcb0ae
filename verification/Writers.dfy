/**
  The retrying writers of the Kubernetes adapter: read, edit, write with the version read, and start
  over on a conflict. Any number of them run against one API server, interleaved with arbitrary
  requests of other clients. Every call that returns nil took effect at one instant, as if it had
  been a single atomic operation on its own half of the object.
 */
module Writers {
  import opened Prelude
  import opened ApiServer

  // A subtree of an object, in some canonical text form.
  type Tree = string

  datatype Main = Main(
    spec: Option<Tree>,
    commonData: Option<Tree>,
    labels: map<string, string>,
    annotations: map<string, string>)

  type Obj = Object<Main, Tree>
  type Db = Store<Main, Tree>
  type Req = Request<Main, Tree>

  // retry.DefaultRetry makes five attempts.
  const ATTEMPTS: nat := 5

  datatype Call =
    | SpecUpdate(key: Key, desired: Main)
    | StatusUpdate(key: Key, status: Option<Tree>)
    // The converter's object is sent as it is; converters build it without finalizers.
    | VersionedUpdate(key: Key, replacement: Main, version: nat)

  datatype Result =
    | Nil                                // the call returned without an error
    | Refused(reply: Reply<Main, Tree>)  // an error of the store, before anything was written
    | Lost                               // no reply came: the request was served, or it was not
    | Vanished                           // the object was gone when it was read back

  // ---------- editing the fetched object ----------

  datatype Synced = Synced(value: Option<Tree>, changed: bool)

  function SyncNestedMap(current: Option<Tree>, desired: Option<Tree>): (r: Synced)
    ensures r.changed <==> r.value != current
    ensures desired.Some? ==> r.value == desired
    ensures desired.None? ==> r.value == current
  {
    if desired.None? then Synced(current, false)
    else if current == desired then Synced(current, false)
    else Synced(desired, true)
  }

  /** The edit a call makes to the object it fetched. */
  function Edit(c: Call, o: Obj): Obj {
    match c
    case SpecUpdate(_, d) =>
      o.(main := Main(
          SyncNestedMap(o.main.spec, d.spec).value,
          SyncNestedMap(o.main.commonData, d.commonData).value,
          d.labels,
          d.annotations))
    case StatusUpdate(_, status) => o.(status := status)
    case VersionedUpdate(_, replacement, version) =>
      Object(0, replacement, [], None, false, version)
  }

  /** Nothing to write: the object is on its way out, or it already holds what is asked for. */
  predicate NothingToWrite(c: Call, o: Obj) {
    match c
    case SpecUpdate(_, d) =>
      || o.deleting
      || (&& !SyncNestedMap(o.main.spec, d.spec).changed
          && !SyncNestedMap(o.main.commonData, d.commonData).changed
          && o.main.labels == d.labels
          && o.main.annotations == d.annotations)
    case StatusUpdate(_, status) => o.status == status
    case VersionedUpdate(_, _, _) => false
  }

  // ---------- what a call means ----------

  /** The call as one indivisible operation. */
  function Atomic(c: Call, s: Db): Db {
    if c.key !in s.objects then s
    else
      var o := s.objects[c.key];
      match c
      case SpecUpdate(_, d) =>
        if o.deleting then s
        else
          var main := Main(
                        if d.spec.Some? then d.spec else o.main.spec,
                        if d.commonData.Some? then d.commonData else o.main.commonData,
                        d.labels, d.annotations);
          if main == o.main then s
          else Store(s.objects[c.key := o.(main := main, version := s.revision + 1)], s.revision + 1)
      case StatusUpdate(_, status) =>
        if o.status == status then s
        else Store(s.objects[c.key := o.(status := status, version := s.revision + 1)], s.revision + 1)
      case VersionedUpdate(_, replacement, version) =>
        if o.version != version then s
        else Commit(s, c.key, o.(main := replacement, finalizers := []))
  }

  /** Every field the call supplied has the value it asked for. */
  ghost predicate Satisfied(c: Call, s: Db) {
    match c
    case SpecUpdate(key, d) =>
      && key in s.objects
      && (s.objects[key].deleting
          || (&& (d.spec.Some? ==> s.objects[key].main.spec == d.spec)
              && (d.commonData.Some? ==> s.objects[key].main.commonData == d.commonData)
              && s.objects[key].main.labels == d.labels
              && s.objects[key].main.annotations == d.annotations))
    case StatusUpdate(key, status) => key in s.objects && s.objects[key].status == status
    case VersionedUpdate(key, replacement, _) => key in s.objects ==> s.objects[key].main == replacement
  }

  // ---------- a call as a sequence of requests ----------

  datatype Phase =
    | Reading(left: nat)
    | Writing(left: nat, base: Obj)
    | Confirming
    | Returned(result: Result)

  function Start(c: Call): Phase {
    match c
    case SpecUpdate(_, _) => Reading(ATTEMPTS)
    case StatusUpdate(_, status) => if status.None? then Returned(Refused(Invalid)) else Reading(ATTEMPTS)
    case VersionedUpdate(_, main, version) => Writing(1, Object(0, main, [], None, false, version))
  }

  function NextRequest(c: Call, p: Phase): Req
    requires !p.Returned?
  {
    match p
    case Reading(_) => Get(c.key)
    case Writing(_, base) =>
      if c.StatusUpdate? then PutStatus(c.key, Edit(c, base)) else Put(c.key, Edit(c, base))
    case Confirming => Get(c.key)
  }

  function NextPhase(c: Call, p: Phase, reply: Reply<Main, Tree>): Phase
    requires !p.Returned?
  {
    match p
    case Reading(left) =>
      if !reply.Ok? then Returned(Refused(reply))
      else if NothingToWrite(c, reply.found) then Confirming
      else Writing(left, reply.found)
    case Writing(left, _) =>
      if reply.Ok? then Confirming
      else if reply.Conflict? && left > 1 then Reading(left - 1)
      else Returned(Refused(reply))
    case Confirming =>
      Returned(if reply.Ok? then Nil else Vanished)
  }

  // ---------- any number of calls ----------

  datatype Thread = Thread(call: Call, phase: Phase)
  datatype World = World(store: Db, threads: seq<Thread>)

  datatype Action =
    | Move(thread: nat, fate: Fate) // one request of a call
    | Outside(request: Req)         // a request of any other client

  /** What becomes of a request. */
  datatype Fate = Answered | ReplyLost | NotServed

  predicate Own(a: Action, i: nat) {
    a.Move? && a.thread == i
  }

  function Step(w: World, a: Action): World {
    match a
    case Outside(r) => w.(store := Handle(w.store, r).store)
    case Move(i, fate) =>
      if i >= |w.threads| || w.threads[i].phase.Returned? then w
      else
        var t := w.threads[i];
        var answer := Handle(w.store, NextRequest(t.call, t.phase));
        World(
          if fate.NotServed? then w.store else answer.store,
          w.threads[i := t.(phase := if fate.Answered?
              then NextPhase(t.call, t.phase, answer.reply) else Returned(Lost))])
  }

  function Play(w: World, actions: seq<Action>): World {
    if actions == [] then w
    else Step(Play(w, actions[..|actions| - 1]), actions[|actions| - 1])
  }

  ghost predicate Initial(w: World) {
    && Consistent(w.store)
    && (forall i :: 0 <= i < |w.threads| ==> w.threads[i].phase == Start(w.threads[i].call))
  }

  ghost predicate ThreadOk(s: Db, t: Thread) {
    t.phase.Writing? && !t.call.VersionedUpdate? ==>
      && Snapshot(s, t.call.key, t.phase.base)
      && !NothingToWrite(t.call, t.phase.base)
  }

  ghost predicate WorldOk(w: World) {
    && Consistent(w.store)
    && (forall i :: 0 <= i < |w.threads| ==> ThreadOk(w.store, w.threads[i]))
  }

  lemma StepOk(w: World, a: Action)
    requires WorldOk(w)
    ensures WorldOk(Step(w, a))
    ensures |Step(w, a).threads| == |w.threads|
    ensures forall i :: 0 <= i < |w.threads| ==> Step(w, a).threads[i].call == w.threads[i].call
    ensures forall i :: 0 <= i < |w.threads| && !Own(a, i) ==> Step(w, a).threads[i] == w.threads[i]
  {
    match a
    case Outside(r) => HandleKeepsSnapshots(w.store, r);
    case Move(i, _) =>
      if i < |w.threads| && !w.threads[i].phase.Returned? {
        HandleKeepsSnapshots(w.store, NextRequest(w.threads[i].call, w.threads[i].phase));
      }
  }

  lemma {:induction false} PlayOk(w: World, actions: seq<Action>)
    requires Initial(w)
    ensures WorldOk(Play(w, actions))
    ensures |Play(w, actions).threads| == |w.threads|
    ensures forall i :: 0 <= i < |w.threads| ==> Play(w, actions).threads[i].call == w.threads[i].call
  {
    if actions != [] {
      var before := actions[..|actions| - 1];
      PlayOk(w, before);
      StepOk(Play(w, before), actions[|actions| - 1]);
    }
  }

  /** One request of a call either leaves the store alone or is the whole call at once. */
  lemma MoveIsAtomicOrSilent(s: Db, t: Thread)
    requires Consistent(s) && ThreadOk(s, t) && !t.phase.Returned?
    ensures var answer := Handle(s, NextRequest(t.call, t.phase));
            var next := NextPhase(t.call, t.phase, answer.reply);
            if next.Confirming? then answer.store == Atomic(t.call, s) && Satisfied(t.call, answer.store)
            else answer.store == s
  {
  }

  // ---------- linearisation ----------

  function StoreAt(w: World, actions: seq<Action>, m: nat): Db
    requires m <= |actions|
  {
    Play(w, actions[..m]).store
  }

  /** None of the thread's own steps changed the store, except possibly the one at `except`. */
  ghost predicate SilentBut(w: World, actions: seq<Action>, i: nat, except: int) {
    forall m {:trigger actions[m]} :: 0 <= m < |actions| && Own(actions[m], i) && m != except ==>
      StoreAt(w, actions, m + 1) == StoreAt(w, actions, m)
  }

  /** At step `m` the call of thread `i` happened, all of it. */
  ghost predicate HappensAt(w: World, actions: seq<Action>, i: nat, m: nat) {
    && i < |w.threads| && m < |actions| && Own(actions[m], i)
    && StoreAt(w, actions, m + 1) == Atomic(w.threads[i].call, StoreAt(w, actions, m))
    && Satisfied(w.threads[i].call, StoreAt(w, actions, m + 1))
    && SilentBut(w, actions, i, m)
  }

  predicate TookEffect(p: Phase) {
    p.Confirming? || (p.Returned? && p.result in {Nil, Vanished})
  }

  /** The call came back without knowing. */
  predicate Unknown(p: Phase) {
    p == Returned(Lost)
  }

  lemma Prefixes(actions: seq<Action>, a: Action)
    ensures forall m {:trigger actions[..m]} {:trigger (actions + [a])[..m]} :: 0 <= m <= |actions| ==>
              (actions + [a])[..m] == actions[..m]
    ensures (actions + [a])[..|actions| + 1] == actions + [a] && actions[..|actions|] == actions
  {
  }

  lemma PlayLonger(w: World, actions: seq<Action>, a: Action)
    ensures Play(w, actions + [a]) == Step(Play(w, actions), a)
  {
    hide Step;
    Prefixes(actions, a);
  }

  /** What one more action adds to the states of a run. */
  lemma StoresLonger(w: World, actions: seq<Action>, a: Action)
    ensures forall m: nat {:trigger StoreAt(w, actions + [a], m)} :: m <= |actions| ==>
              StoreAt(w, actions + [a], m) == StoreAt(w, actions, m)
    ensures StoreAt(w, actions + [a], |actions| + 1) == Step(Play(w, actions), a).store
    ensures StoreAt(w, actions, |actions|) == Play(w, actions).store
  {
    hide Play, Step;
    Prefixes(actions, a);
    PlayLonger(w, actions, a);
  }

  lemma SilentExtends(w: World, actions: seq<Action>, a: Action, i: nat, except: int)
    requires SilentBut(w, actions, i, except)
    requires Own(a, i) ==> except == |actions| || Step(Play(w, actions), a).store == Play(w, actions).store
    ensures SilentBut(w, actions + [a], i, except)
  {
    hide Play, Step;
    StoresLonger(w, actions, a);
    hide StoreAt;
    var longer := actions + [a];
    forall m | 0 <= m < |longer| && Own(longer[m], i) && m != except
      ensures StoreAt(w, longer, m + 1) == StoreAt(w, longer, m)
    {
      if m < |actions| {
        assert Own(actions[m], i);
      }
    }
  }

  /** How one step looks to thread `i`. */
  lemma StepSeenBy(w: World, a: Action, i: nat)
    requires WorldOk(w) && i < |w.threads|
    ensures i < |Step(w, a).threads|
    ensures var call, before, after := w.threads[i].call, w.threads[i].phase, Step(w, a).threads[i].phase;
            && (Unknown(before) ==> Unknown(after))
            && (TookEffect(before) ==> TookEffect(after) || Unknown(after))
            && (!TookEffect(before) && !Unknown(before) && TookEffect(after) ==> TakesEffect(w, a, i))
            && (!TookEffect(before) && !Unknown(before) && Unknown(after) ==>
                  Own(a, i) && (Step(w, a).store == w.store || TakesEffect(w, a, i)))
            && (Own(a, i) && (TookEffect(before) || Unknown(before) || (!TookEffect(after) && !Unknown(after))) ==>
                  Step(w, a).store == w.store)
  {
    if Own(a, i) && !w.threads[i].phase.Returned? {
      MoveIsAtomicOrSilent(w.store, w.threads[i]);
      hide Handle, NextRequest, NextPhase, Atomic, Satisfied;
      if w.threads[i].phase.Confirming? {
        ReadingIsSilent(w.store, w.threads[i]);
      }
    }
  }

  lemma ReadingIsSilent(s: Db, t: Thread)
    requires t.phase.Confirming?
    ensures Handle(s, NextRequest(t.call, t.phase)).store == s
    ensures !NextPhase(t.call, t.phase, Handle(s, NextRequest(t.call, t.phase)).reply).Confirming?
  {
  }

  /** The step is the thread's own, and it is the whole call. */
  ghost predicate TakesEffect(w: World, a: Action, i: nat)
    requires i < |w.threads|
  {
    && Own(a, i)
    && Step(w, a).store == Atomic(w.threads[i].call, w.store)
    && Satisfied(w.threads[i].call, Step(w, a).store)
  }

  lemma HappensExtends(w: World, actions: seq<Action>, a: Action, i: nat, m: nat)
    requires HappensAt(w, actions, i, m)
    requires Own(a, i) ==> Step(Play(w, actions), a).store == Play(w, actions).store
    ensures HappensAt(w, actions + [a], i, m)
  {
    hide Play, Step, Atomic, Satisfied;
    StoresLonger(w, actions, a);
    hide StoreAt;
    SilentExtends(w, actions, a, i, m);
  }

  lemma HappensNow(w: World, actions: seq<Action>, a: Action, i: nat)
    requires i < |w.threads| && Own(a, i) && SilentBut(w, actions, i, -1)
    requires Step(Play(w, actions), a).store == Atomic(w.threads[i].call, Play(w, actions).store)
    requires Satisfied(w.threads[i].call, Step(Play(w, actions), a).store)
    ensures HappensAt(w, actions + [a], i, |actions|)
  {
    hide Play, Step, Atomic, Satisfied;
    StoresLonger(w, actions, a);
    hide StoreAt;
    assert SilentBut(w, actions, i, |actions|);
    SilentExtends(w, actions, a, i, |actions|);
  }

  /**
    In every interleaving: a call that took effect did so at exactly one of its steps, where the
    store went from what it was to the result of the whole call; a call that is still trying, or was
    refused, changed nothing; and a call whose reply was lost did the one or the other.
   */
  lemma {:induction false} Linearisable(w: World, actions: seq<Action>, i: nat)
    requires Initial(w) && i < |w.threads|
    ensures |Play(w, actions).threads| == |w.threads|
    ensures var phase := Play(w, actions).threads[i].phase;
            && (TookEffect(phase) ==> exists m: nat :: HappensAt(w, actions, i, m))
            && (Unknown(phase) ==> SilentBut(w, actions, i, -1) || exists m: nat :: HappensAt(w, actions, i, m))
            && (!TookEffect(phase) && !Unknown(phase) ==> SilentBut(w, actions, i, -1))
  {
    PlayOk(w, actions);
    if actions != [] {
      var before, a := actions[..|actions| - 1], actions[|actions| - 1];
      assert before + [a] == actions;
      PlayOk(w, before);
      Linearisable(w, before, i);
      assert InOneInstant(w, before, i);
      LinearisableStep(w, before, a, i);
      assert InOneInstant(w, actions, i);
    }
  }

  /** What is said above of one thread. */
  ghost predicate InOneInstant(w: World, actions: seq<Action>, i: nat)
    requires i < |Play(w, actions).threads|
  {
    var phase := Play(w, actions).threads[i].phase;
    && (TookEffect(phase) ==> exists m: nat :: HappensAt(w, actions, i, m))
    && (Unknown(phase) ==> SilentBut(w, actions, i, -1) || exists m: nat :: HappensAt(w, actions, i, m))
    && (!TookEffect(phase) && !Unknown(phase) ==> SilentBut(w, actions, i, -1))
  }

  lemma LinearisableStep(w: World, before: seq<Action>, a: Action, i: nat)
    requires Initial(w) && i < |w.threads| && WorldOk(Play(w, before)) && |Play(w, before).threads| == |w.threads|
    requires Play(w, before).threads[i].call == w.threads[i].call && InOneInstant(w, before, i)
    ensures |Play(w, before + [a]).threads| == |w.threads| && InOneInstant(w, before + [a], i)
  {
    StepOk(Play(w, before), a);
    StepSeenBy(Play(w, before), a, i);
    PlayLonger(w, before, a);
    hide Play, Step, Atomic, Satisfied, SilentBut, HappensAt, Initial, WorldOk;
    var phase := Play(w, before).threads[i].phase;
    if (TookEffect(phase) || Unknown(phase)) && exists m: nat :: HappensAt(w, before, i, m) {
      var m: nat :| HappensAt(w, before, i, m);
      HappensExtends(w, before, a, i, m);
    } else if TakesEffect(Play(w, before), a, i) {
      HappensNow(w, before, a, i);
    } else {
      SilentExtends(w, before, a, i, -1);
    }
  }

  // ---------- the two halves do not disturb each other ----------

  ghost predicate SameButStatus(a: Db, b: Db, key: Key) {
    && (key in a.objects <==> key in b.objects)
    && (key in a.objects ==>
          && b.objects[key].main == a.objects[key].main
          && b.objects[key].finalizers == a.objects[key].finalizers
          && b.objects[key].deleting == a.objects[key].deleting)
  }

  ghost predicate SameButMain(a: Db, b: Db, key: Key) {
    && (key in a.objects <==> key in b.objects)
    && (key in a.objects ==>
          && b.objects[key].status == a.objects[key].status
          && b.objects[key].finalizers == a.objects[key].finalizers
          && b.objects[key].deleting == a.objects[key].deleting)
  }

  /**
    The reach of a call: a status update keeps the main half, the finalizers and the deletion mark;
    a spec update keeps the status, the finalizers and the deletion mark, and writes nothing at all
    to an object under deletion; neither touches another object.
   */
  lemma Reach(c: Call, s: Db, key: Key)
    ensures c.StatusUpdate? ==> SameButStatus(s, Atomic(c, s), key)
    ensures c.SpecUpdate? ==> SameButMain(s, Atomic(c, s), key)
    ensures c.SpecUpdate? && c.key in s.objects && s.objects[c.key].deleting ==> Atomic(c, s) == s
    ensures key != c.key ==>
              && (key in s.objects <==> key in Atomic(c, s).objects)
              && (key in s.objects ==> Atomic(c, s).objects[key] == s.objects[key])
  {
  }

  /**
    The versioned update is different: it sends the converter's object, which has no finalizers. It
    keeps those of the stored object exactly when there were none, and an object already under
    deletion disappears with it.
   */
  lemma VersionedUpdateDropsFinalizers(c: Call, s: Db)
    requires Consistent(s) && c.VersionedUpdate?
    requires c.key in s.objects && s.objects[c.key].version == c.version
    ensures var o, after := s.objects[c.key], Atomic(c, s).objects;
            && (c.key in after <==> !o.deleting)
            && (c.key in after && after[c.key].finalizers == o.finalizers <==> o.finalizers == [])
  {
  }

  /** The action may change the status of `key`. */
  predicate WritesStatus(w: World, a: Action, key: Key) {
    match a
    case Move(i, _) => i < |w.threads| && w.threads[i].call.key == key && w.threads[i].call.StatusUpdate?
    case Outside(r) => r.key == key && (r.PutStatus? || r.Create?)
  }

  /** The action may change the main half of `key`, its finalizers or its deletion mark. */
  predicate WritesMain(w: World, a: Action, key: Key) {
    match a
    case Move(i, _) => i < |w.threads| && w.threads[i].call.key == key && !w.threads[i].call.StatusUpdate?
    case Outside(r) => r.key == key && (r.Put? || r.Create? || r.Delete?)
  }

  lemma StepKeepsStatus(w: World, a: Action, key: Key)
    requires WorldOk(w) && !WritesStatus(w, a, key) && key in Step(w, a).store.objects
    ensures key in w.store.objects && Step(w, a).store.objects[key].status == w.store.objects[key].status
  {
  }

  lemma RequestKeepsMain(s: Db, r: Req, key: Key)
    requires key in s.objects && (r.key == key ==> r.Get? || r.PutStatus?)
    requires Consistent(s)
    ensures SameButStatus(s, Handle(s, r).store, key)
  {
  }

  lemma StepKeepsMain(w: World, a: Action, key: Key)
    requires WorldOk(w) && !WritesMain(w, a, key) && key in w.store.objects
    ensures SameButStatus(w.store, Step(w, a).store, key)
  {
    hide Handle;
    match a
    case Outside(r) => RequestKeepsMain(w.store, r, key);
    case Move(i, _) =>
      if i < |w.threads| && !w.threads[i].phase.Returned? {
        RequestKeepsMain(w.store, NextRequest(w.threads[i].call, w.threads[i].phase), key);
      }
  }

  /** A status stays until somebody writes another status, however many spec updates go by. */
  lemma {:induction false} StatusSurvives(w: World, actions: seq<Action>, key: Key, from: nat, status: Option<Tree>)
    requires Initial(w) && from <= |actions|
    requires key in StoreAt(w, actions, from).objects ==> StoreAt(w, actions, from).objects[key].status == status
    requires forall m {:trigger actions[m]} :: from <= m < |actions| && WritesStatus(w, actions[m], key) ==>
               StoreAt(w, actions, m + 1) == StoreAt(w, actions, m)
    ensures key in Play(w, actions).store.objects ==> Play(w, actions).store.objects[key].status == status
  {
    hide Play, Step, Initial;
    assert actions[..|actions|] == actions;
    if from < |actions| {
      var before, a := actions[..|actions| - 1], actions[|actions| - 1];
      assert before + [a] == actions;
      PrefixStores(w, actions, |before|);
      StatusSurvives(w, before, key, from, status);
      PlayOk(w, before);
      PlayLonger(w, before, a);
      StoresLonger(w, before, a);
      if !WritesStatus(w, a, key) && key in Play(w, actions).store.objects {
        SameWriters(w, Play(w, before), a, key);
        StepKeepsStatus(Play(w, before), a, key);
      }
    }
  }

  /** Who writes what does not change in the course of a run. */
  lemma SameWriters(w: World, v: World, a: Action, key: Key)
    requires |v.threads| == |w.threads| && forall i :: 0 <= i < |w.threads| ==> v.threads[i].call == w.threads[i].call
    ensures WritesStatus(v, a, key) == WritesStatus(w, a, key) && WritesMain(v, a, key) == WritesMain(w, a, key)
  {
  }

  /** The main half stays until somebody writes it, however many status updates go by. */
  lemma {:induction false} MainSurvives(w: World, actions: seq<Action>, key: Key, from: nat)
    requires Initial(w) && from <= |actions|
    requires key in StoreAt(w, actions, from).objects
    requires forall m {:trigger actions[m]} :: from <= m < |actions| && WritesMain(w, actions[m], key) ==>
               StoreAt(w, actions, m + 1) == StoreAt(w, actions, m)
    ensures SameButStatus(StoreAt(w, actions, from), Play(w, actions).store, key)
  {
    hide Play, Step, Initial;
    assert actions[..|actions|] == actions;
    if from < |actions| {
      var before, a := actions[..|actions| - 1], actions[|actions| - 1];
      assert before + [a] == actions;
      PrefixStores(w, actions, |before|);
      MainSurvives(w, before, key, from);
      PlayOk(w, before);
      PlayLonger(w, before, a);
      StoresLonger(w, before, a);
      if !WritesMain(w, a, key) {
        SameWriters(w, Play(w, before), a, key);
        StepKeepsMain(Play(w, before), a, key);
      }
    }
  }

  lemma PrefixStores(w: World, actions: seq<Action>, n: nat)
    requires n <= |actions|
    ensures forall m: nat {:trigger StoreAt(w, actions[..n], m)} :: m <= n ==>
              StoreAt(w, actions[..n], m) == StoreAt(w, actions, m)
  {
    forall m: nat | m <= n
      ensures StoreAt(w, actions[..n], m) == StoreAt(w, actions, m)
    {
      assert actions[..n][..m] == actions[..m];
    }
  }

  /** From `from` on, nobody's write to the main half of the object takes effect. */
  ghost predicate NoMainWrite(w: World, actions: seq<Action>, key: Key, from: nat) {
    forall m {:trigger actions[m]} :: from <= m < |actions| && WritesMain(w, actions[m], key) ==>
      StoreAt(w, actions, m + 1) == StoreAt(w, actions, m)
  }

  ghost predicate NoStatusWrite(w: World, actions: seq<Action>, key: Key, from: nat) {
    forall m {:trigger actions[m]} :: from <= m < |actions| && WritesStatus(w, actions[m], key) ==>
      StoreAt(w, actions, m + 1) == StoreAt(w, actions, m)
  }

  lemma MainWriteStands(w: World, actions: seq<Action>, i: nat, m: nat, key: Key)
    requires Initial(w) && HappensAt(w, actions, i, m) && NoMainWrite(w, actions, key, m + 1)
    requires w.threads[i].call.SpecUpdate? && w.threads[i].call.key == key
    ensures Satisfied(w.threads[i].call, Play(w, actions).store) && key in Play(w, actions).store.objects
  {
    hide Play, StoreAt, Atomic, Initial, WritesMain, SilentBut;
    MainSurvives(w, actions, key, m + 1);
  }

  lemma StatusWriteStands(w: World, actions: seq<Action>, j: nat, n: nat, key: Key)
    requires Initial(w) && HappensAt(w, actions, j, n) && NoStatusWrite(w, actions, key, n + 1)
    requires w.threads[j].call.StatusUpdate? && w.threads[j].call.key == key
    ensures key in Play(w, actions).store.objects ==> Satisfied(w.threads[j].call, Play(w, actions).store)
  {
    hide Play, StoreAt, Atomic, Initial, WritesStatus, SilentBut;
    StatusSurvives(w, actions, key, n + 1, w.threads[j].call.status);
  }

  /**
    No lost update. Any number of calls and outside requests write the object; of those, a spec update
    is the last to write the main half and a status update the last to write the status, in whatever
    order. Both have returned nil: the object holds what both of them asked for (one under deletion
    holds at least the status).
   */
  lemma NoLostUpdate(w: World, actions: seq<Action>, i: nat, j: nat, key: Key)
    requires Initial(w) && i < |w.threads| && j < |w.threads|
    requires w.threads[i].call.SpecUpdate? && w.threads[i].call.key == key
    requires w.threads[j].call.StatusUpdate? && w.threads[j].call.key == key
    requires forall m: nat :: HappensAt(w, actions, i, m) ==> NoMainWrite(w, actions, key, m + 1)
    requires forall n: nat :: HappensAt(w, actions, j, n) ==> NoStatusWrite(w, actions, key, n + 1)
    requires |Play(w, actions).threads| == |w.threads|
    requires Play(w, actions).threads[i].phase == Returned(Nil)
    requires Play(w, actions).threads[j].phase == Returned(Nil)
    ensures Satisfied(w.threads[i].call, Play(w, actions).store)
    ensures Satisfied(w.threads[j].call, Play(w, actions).store)
  {
    Linearisable(w, actions, i);
    Linearisable(w, actions, j);
    var m: nat :| HappensAt(w, actions, i, m);
    var n: nat :| HappensAt(w, actions, j, n);
    hide *;
    MainWriteStands(w, actions, i, m, key);
    StatusWriteStands(w, actions, j, n, key);
  }

  // ---------- giving up ----------

  /** How many steps that are not the thread's own changed the object. */
  function OthersCommits(w: World, actions: seq<Action>, i: nat, key: Key): nat {
    if actions == [] then 0
    else
      var before, a := actions[..|actions| - 1], actions[|actions| - 1];
      OthersCommits(w, before, i, key)
      + if !Own(a, i) && ObjectAt(Play(w, before).store, key) != ObjectAt(Play(w, actions).store, key)
        then 1 else 0
  }

  /** Every attempt a retrying call has used up was spoiled by a commit of its own. */
  ghost predicate AttemptsPaidFor(s: Db, t: Thread, commits: nat) {
    match t.phase
    case Reading(left) => 0 < left <= ATTEMPTS && commits >= ATTEMPTS - left
    case Writing(left, base) =>
      && 0 < left <= ATTEMPTS
      && commits >= ATTEMPTS - left
      && (ObjectAt(s, t.call.key) != Some(base) ==> commits >= ATTEMPTS - left + 1)
    case Returned(Refused(Conflict)) => commits >= ATTEMPTS
    case _ => true
  }

  /** A retrying call that gives up with a conflict was overtaken by at least five commits. */
  lemma {:induction false} GivingUpTakesFiveCommits(w: World, actions: seq<Action>, i: nat)
    requires Initial(w) && i < |w.threads| && !w.threads[i].call.VersionedUpdate?
    ensures |Play(w, actions).threads| == |w.threads|
    ensures AttemptsPaidFor(Play(w, actions).store, Play(w, actions).threads[i],
                            OthersCommits(w, actions, i, w.threads[i].call.key))
    ensures Play(w, actions).threads[i].phase == Returned(Refused(Conflict)) ==>
              OthersCommits(w, actions, i, w.threads[i].call.key) >= ATTEMPTS
  {
    PlayOk(w, actions);
    if actions != [] {
      var before, a := actions[..|actions| - 1], actions[|actions| - 1];
      GivingUpTakesFiveCommits(w, before, i);
      PlayOk(w, before);
      StepOk(Play(w, before), a);
      var world := Play(w, before);
      if Own(a, i) && !world.threads[i].phase.Returned? {
        MoveIsAtomicOrSilent(world.store, world.threads[i]);
      }
    }
  }

  // ---------- an error after the fact ----------

  function Alone(s: Db, c: Call): World {
    World(s, [Thread(c, Start(c))])
  }

  lemma TwoActions(w: World, a: Action, b: Action)
    ensures Play(w, [a, b]) == Step(Step(w, a), b)
  {
    hide Step;
    assert [a, b] == [a] + [b] && [a] == [] + [a];
    PlayLonger(w, [], a);
    PlayLonger(w, [a], b);
  }

  lemma FourActions(w: World, a: Action, b: Action, c: Action, d: Action)
    ensures Play(w, [a, b, c, d]) == Step(Step(Step(Step(w, a), b), c), d)
  {
    hide Step;
    TwoActions(w, a, b);
    assert [a, b, c, d] == [a, b, c] + [d] && [a, b, c] == [a, b] + [c];
    PlayLonger(w, [a, b], c);
    PlayLonger(w, [a, b, c], d);
  }

  /**
    A call can report an error although it took effect: the object is deleted between its write and
    its read back, and the deletion takes the write along.
   */
  lemma CommittedThenVanished(s: Db, c: Call)
    requires Consistent(s) && c.SpecUpdate? && c.key in s.objects
    requires s.objects[c.key].finalizers == [] && !NothingToWrite(c, s.objects[c.key])
    ensures var written := Play(Alone(s, c), [Move(0, Answered), Move(0, Answered)]);
            var final := Play(Alone(s, c),
                [Move(0, Answered), Move(0, Answered), Outside(Delete(c.key, None)), Move(0, Answered)]);
            && written.store == Atomic(c, s) != s
            && final.threads == [Thread(c, Returned(Vanished))] && c.key !in final.store.objects
  {
    var w := Alone(s, c);
    TwoActions(w, Move(0, Answered), Move(0, Answered));
    FourActions(w, Move(0, Answered), Move(0, Answered), Outside(Delete(c.key, None)), Move(0, Answered));
    hide Play, Step;
    TwoMovesWrite(s, c);
    var wrote := Step(Step(w, Move(0, Answered)), Move(0, Answered));
    DeletionVanishes(wrote, c);
  }

  lemma TwoMovesWrite(s: Db, c: Call)
    requires Consistent(s) && c.SpecUpdate? && c.key in s.objects && !NothingToWrite(c, s.objects[c.key])
    ensures var wrote := Step(Step(Alone(s, c), Move(0, Answered)), Move(0, Answered));
            && wrote.threads == [Thread(c, Confirming)] && wrote.store == Atomic(c, s) != s
            && c.key in wrote.store.objects && wrote.store.objects[c.key].finalizers == s.objects[c.key].finalizers
  {
    var read := Step(Alone(s, c), Move(0, Answered));
    assert read == World(s, [Thread(c, Writing(ATTEMPTS, s.objects[c.key]))]);
  }

  lemma DeletionVanishes(w: World, c: Call)
    requires w.threads == [Thread(c, Confirming)] && c.key in w.store.objects && w.store.objects[c.key].finalizers == []
    ensures var final := Step(Step(w, Outside(Delete(c.key, None))), Move(0, Answered));
            final.threads == [Thread(c, Returned(Vanished))] && c.key !in final.store.objects
  {
    var gone := Step(w, Outside(Delete(c.key, None)));
    assert c.key !in gone.store.objects;
  }

  /** A call can report an error although it took effect: the reply to its write is lost. */
  lemma CommittedThenLost(s: Db, c: Call)
    requires Consistent(s) && c.SpecUpdate? && c.key in s.objects && !NothingToWrite(c, s.objects[c.key])
    ensures var final := Play(Alone(s, c), [Move(0, Answered), Move(0, ReplyLost)]);
            final.threads == [Thread(c, Returned(Lost))] && final.store == Atomic(c, s) != s
  {
    TwoActions(Alone(s, c), Move(0, Answered), Move(0, ReplyLost));
    TwoMovesWrite(s, c);
    hide Play;
    var read := Step(Alone(s, c), Move(0, Answered));
    assert read == World(s, [Thread(c, Writing(ATTEMPTS, s.objects[c.key]))]);
    hide Handle, Edit;
  }

  /** A retrying call may be made again after an error: what took effect already is not written twice. */
  lemma CallAgain(c: Call, s: Db)
    requires !c.VersionedUpdate?
    ensures Atomic(c, Atomic(c, s)) == Atomic(c, s)
  {
  }
}
