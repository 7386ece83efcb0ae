/**
  The update of a resource that is already active. It is handed the desired state on every pass, so
  it must write its status only when what it reports changes: the controller watches those writes,
  and one write too many would feed itself.
 */
module LevelUpdate {
  import opened Prelude
  import opened Conditions

  const UPDATE_FAILED := "UpdateFailed"

  /** What the provider's update came to. */
  datatype Outcome =
    | Succeeded
    | StillProcessing
    | NotSupported(message: string)
    | Failed(message: string)

  /** How the store answers a status write. */
  datatype Answer = Stored | Missing | Broken

  function ActiveCondition(now: int): Condition {
    Condition(ACTIVE, "Reconcile", "active", "Resource is active and ready.", now, 0)
  }

  function UpdateFailedCondition(message: string, now: int): Condition {
    Condition(ACTIVE, UPDATE_FAILED, "UpdateNotApplied", message, now, 0)
  }

  predicate ReportsFailure(c: Condition) {
    c.kind == UPDATE_FAILED
  }

  function WithoutFailures(cs: seq<Condition>): (r: seq<Condition>) {
    Filter(cs, (c: Condition) => !ReportsFailure(c))
  }

  lemma {:induction false} NothingDeleted(cs: seq<Condition>)
    ensures |WithoutFailures(cs)| == |cs| <==> forall c :: c in cs ==> !ReportsFailure(c)
    ensures |WithoutFailures(cs)| == |cs| ==> WithoutFailures(cs) == cs
  {
    if cs != [] {
      NothingDeleted(cs[1..]);
      assert cs == [cs[0]] + cs[1..];
      assert forall c :: c in cs <==> c == cs[0] || c in cs[1..];
    }
  }

  /** One by one: an entry goes exactly if it is a failure, and the others stay in order. */
  lemma WithoutFailuresOneByOne(cs: seq<Condition>, c: Condition)
    ensures WithoutFailures([]) == []
    ensures WithoutFailures(cs + [c]) == WithoutFailures(cs) + if c.kind == "UpdateFailed" then [] else [c]
  {
    FilterAppend(cs, [c], (c: Condition) => !ReportsFailure(c));
  }

  // ---------- one pass ----------

  /** The status the pass sends to the store, if it sends one. */
  function Report(s: StatusValue, outcome: Outcome, max: int, now: int): Option<StatusValue> {
    match outcome
    case StillProcessing => None
    case Succeeded =>
      var kept := WithoutFailures(s.conditions);
      if kept == s.conditions then None
      else
        var pushed := Pushed(s.(conditions := kept), ActiveCondition(now), now);
        Some(pushed.(conditions := Newest(pushed.conditions, max)))
    case _ =>
      var condition := UpdateFailedCondition(outcome.message, now);
      if s.conditions != [] && CauseOf(s.conditions[0]) == CauseOf(condition) then None
      else
        var pushed := Pushed(s, condition, now);
        Some(pushed.(conditions := Newest(pushed.conditions, max)))
  }

  /** The stored resource status and the number of committed writes to it. */
  class Repository {
    var stored: StatusValue
    var commits: nat

    constructor (stored: StatusValue)
      ensures this.stored == stored && commits == 0
    {
      this.stored, commits := stored, 0;
    }

    method UpdateStatus(value: StatusValue, answer: Answer)
      modifies this
      ensures answer.Stored? ==> stored == value && commits == old(commits) + 1
      ensures !answer.Stored? ==> stored == old(stored) && commits == old(commits)
    {
      if answer.Stored? {
        stored, commits := value, commits + 1;
      }
    }
  }

  /** What a pass leaves behind. */
  twostate predicate Reported(repo: Repository, before: StatusValue, outcome: Outcome, max: int, now: int,
                              answer: Answer)
    reads repo
  {
    var report := Report(before, outcome, max, now);
    if report.Some? && answer.Stored? then
      repo.stored == report.value && repo.commits == old(repo.commits) + 1
    else
      repo.stored == old(repo.stored) && repo.commits == old(repo.commits)
  }

  /** A resource that is gone has no status to report, and that is no error. */
  method PersistIgnoringMissing(repo: Repository, status: Status, answer: Answer) returns (err: bool)
    modifies repo
    ensures err <==> answer.Broken?
    ensures answer.Stored? ==> repo.stored == status.Value() && repo.commits == old(repo.commits) + 1
    ensures !answer.Stored? ==> repo.stored == old(repo.stored) && repo.commits == old(repo.commits)
  {
    repo.UpdateStatus(status.Value(), answer);
    err := answer.Broken?;
  }

  method RecordUpdateFailure(repo: Repository, status: Status, message: string, max: int, now: int, answer: Answer)
    returns (err: bool)
    requires now != 0
    modifies repo, status
    ensures Reported(repo, old(status.Value()), Failed(message), max, now, answer)
    ensures err <==> answer.Broken? && Report(old(status.Value()), Failed(message), max, now).Some?
  {
    var condition := UpdateFailedCondition(message, now);
    var previous := status.PeekConditions();
    if previous.Some? && EqualStatusConditions(previous.value, condition) {
      return false;
    }
    status.PushCondition(condition, now);
    status.TrimConditions(max);
    err := PersistIgnoringMissing(repo, status, answer);
  }

  method ClearUpdateFailure(repo: Repository, status: Status, max: int, now: int, answer: Answer)
    returns (err: bool)
    requires now != 0
    modifies repo, status
    ensures Reported(repo, old(status.Value()), Succeeded, max, now, answer)
    ensures err <==> answer.Broken? && Report(old(status.Value()), Succeeded, max, now).Some?
  {
    NothingDeleted(status.conditions);
    var before := |status.conditions|;
    status.conditions := WithoutFailures(status.conditions);
    if |status.conditions| == before {
      return false;
    }
    status.PushCondition(ActiveCondition(now), now);
    status.TrimConditions(max);
    err := PersistIgnoringMissing(repo, status, answer);
  }

  method HandleUpdate(repo: Repository, status: Status, outcome: Outcome, max: int, now: int, answer: Answer)
    returns (requeue: bool, err: bool)
    requires now != 0
    modifies repo, status
    ensures Reported(repo, old(status.Value()), outcome, max, now, answer)
    ensures requeue <==> outcome.StillProcessing? || outcome.Failed?
    ensures err <==> answer.Broken? && Report(old(status.Value()), outcome, max, now).Some?
  {
    match outcome
    case Succeeded =>
      requeue := false;
      err := ClearUpdateFailure(repo, status, max, now, answer);
    case StillProcessing =>
      requeue, err := true, false;
    case NotSupported(message) =>
      requeue := false;
      err := RecordUpdateFailure(repo, status, message, max, now, answer);
    case Failed(message) =>
      requeue := true;
      err := RecordUpdateFailure(repo, status, message, max, now, answer);
  }

  // ---------- any number of passes ----------

  datatype Pass = Pass(outcome: Outcome, answer: Answer, now: int)

  /** The stored status and the number of commits after one more pass. */
  function After(before: (StatusValue, nat), p: Pass, max: int): (StatusValue, nat) {
    var report := Report(before.0, p.outcome, max, p.now);
    if report.Some? && p.answer.Stored? then (report.value, before.1 + 1) else before
  }

  /** Every pass starts from the stored status. */
  function Run(s: StatusValue, passes: seq<Pass>, max: int): (StatusValue, nat) {
    if passes == [] then (s, 0)
    else After(Run(s, passes[..|passes| - 1], max), passes[|passes| - 1], max)
  }

  lemma RunLonger(s: StatusValue, passes: seq<Pass>, n: nat, max: int)
    requires n < |passes|
    ensures Run(s, passes[..n + 1], max) == After(Run(s, passes[..n], max), passes[n], max)
  {
    assert passes[..n + 1][..n] == passes[..n];
  }

  /** One pass over the stored status. */
  method PassOver(repo: Repository, p: Pass, max: int)
    requires p.now != 0
    modifies repo
    ensures (repo.stored, repo.commits) == After((old(repo.stored), old(repo.commits)), p, max)
  {
    hide Report;
    var status := new Status(repo.stored);
    var _, _ := HandleUpdate(repo, status, p.outcome, max, p.now, p.answer);
  }

  method Drive(s: StatusValue, passes: seq<Pass>, max: int) returns (final: StatusValue, commits: nat)
    requires forall i :: 0 <= i < |passes| ==> passes[i].now != 0
    ensures (final, commits) == Run(s, passes, max)
  {
    var repo := new Repository(s);
    for n := 0 to |passes|
      invariant fresh(repo)
      invariant (repo.stored, repo.commits) == Run(s, passes[..n], max)
    {
      hide After;
      RunLonger(s, passes, n, max);
      PassOver(repo, passes[n], max);
    }
    assert passes[..|passes|] == passes;
    final, commits := repo.stored, repo.commits;
  }

  /** What the user is told about a pass; a pass still in flight tells nothing. */
  datatype Verdict = Applied | NotApplied(message: string)

  function Verdicts(passes: seq<Pass>): seq<Verdict> {
    if passes == [] then []
    else
      var before := Verdicts(passes[..|passes| - 1]);
      match passes[|passes| - 1].outcome
      case StillProcessing => before
      case Succeeded => before + [Applied]
      case NotSupported(m) => before + [NotApplied(m)]
      case Failed(m) => before + [NotApplied(m)]
  }

  /** The number of maximal blocks of equal neighbours. */
  function Blocks(vs: seq<Verdict>): nat {
    if |vs| <= 1 then |vs|
    else Blocks(vs[..|vs| - 1]) + if vs[|vs| - 1] == vs[|vs| - 2] then 0 else 1
  }

  /** The status already says so. */
  ghost predicate Says(s: StatusValue, v: Verdict) {
    match v
    case Applied => forall c :: c in s.conditions ==> !ReportsFailure(c)
    case NotApplied(m) => s.conditions != [] && CauseOf(s.conditions[0]) == CauseOf(UpdateFailedCondition(m, 0))
  }

  function VerdictOf(o: Outcome): Verdict
    requires !o.StillProcessing?
  {
    if o.Succeeded? then Applied else NotApplied(o.message)
  }

  /** A pass writes if and only if the status does not say so yet, and then it does. */
  lemma ReportIffNews(s: StatusValue, outcome: Outcome, max: int, now: int)
    requires now != 0 && !outcome.StillProcessing?
    ensures Report(s, outcome, max, now).None? <==> Says(s, VerdictOf(outcome))
    ensures Report(s, outcome, max, now).Some? ==> Says(Report(s, outcome, max, now).value, VerdictOf(outcome))
  {
    if outcome.Succeeded? {
      NothingDeleted(s.conditions);
      var kept := WithoutFailures(s.conditions);
      var pushed := PushedList(kept, ActiveCondition(now));
      assert forall c :: c in pushed ==> c in kept || !ReportsFailure(c);
      assert forall c :: c in Newest(pushed, max) ==> c in pushed;
    }
  }

  /**
    What a report says and keeps: a success is put in front of every entry without a failure, and a
    failure in front of every entry, in their order and up to the bound.
   */
  lemma ReportKeepsHistory(s: StatusValue, outcome: Outcome, max: int, now: int)
    requires now != 0 && Report(s, outcome, max, now).Some?
    ensures var r := Report(s, outcome, max, now).value;
            match outcome
            case Succeeded =>
              PutInFront(WithoutFailures(s.conditions), r.conditions,
                         Condition("active", "Reconcile", "active", "Resource is active and ready.", now, 0), max)
            case StillProcessing => false
            case NotSupported(m) =>
              PutInFront(s.conditions, r.conditions,
                         Condition("active", "UpdateFailed", "UpdateNotApplied", m, now, 0), max)
            case Failed(m) =>
              PutInFront(s.conditions, r.conditions,
                         Condition("active", "UpdateFailed", "UpdateNotApplied", m, now, 0), max)
  {
    hide PutInFront;
    if outcome.Succeeded? {
      PushAndTrim(s.(conditions := WithoutFailures(s.conditions)), ActiveCondition(now), now, max);
    } else {
      PushAndTrim(s, UpdateFailedCondition(outcome.message, now), now, max);
    }
  }

  /** The same outcome again writes nothing: the writer does not wake itself twice. */
  lemma Quiescent(s: StatusValue, outcome: Outcome, max: int, now: int, later: int)
    requires now != 0 && later != 0 && Report(s, outcome, max, now).Some?
    ensures Report(Report(s, outcome, max, now).value, outcome, max, later).None?
  {
    ReportIffNews(s, outcome, max, now);
    ReportIffNews(Report(s, outcome, max, now).value, outcome, max, later);
  }

  ghost predicate Healthy(s: StatusValue) {
    s.state == ACTIVE && (s.conditions != [] ==> s.conditions[0].state == ACTIVE)
  }

  /** The resource stays active, and the state keeps mirroring the newest condition. */
  lemma ReportKeepsActive(s: StatusValue, outcome: Outcome, max: int, now: int)
    requires Healthy(s) && Report(s, outcome, max, now).Some?
    ensures Healthy(Report(s, outcome, max, now).value)
    ensures Report(s, outcome, max, now).value.conditions != []
    ensures max > 0 ==> |Report(s, outcome, max, now).value.conditions| <= max
  {
  }

  lemma BlocksOfLonger(vs: seq<Verdict>, v: Verdict)
    ensures Blocks(vs + [v]) == if vs != [] && vs[|vs| - 1] == v then Blocks(vs) else Blocks(vs) + 1
  {
    assert (vs + [v])[..|vs|] == vs;
  }

  /** The newest verdict is in the status already. */
  ghost predicate UpToDate(s: StatusValue, vs: seq<Verdict>) {
    vs == [] || Says(s, vs[|vs| - 1])
  }

  /** The writes so far are paid for by the blocks so far, with one to spare while news are pending. */
  ghost predicate Paid(state: (StatusValue, nat), vs: seq<Verdict>) {
    && state.1 <= Blocks(vs)
    && (!UpToDate(state.0, vs) ==> state.1 < Blocks(vs))
  }

  function Told(vs: seq<Verdict>, o: Outcome): seq<Verdict> {
    if o.StillProcessing? then vs else vs + [VerdictOf(o)]
  }

  lemma PassIsPaid(before: (StatusValue, nat), vs: seq<Verdict>, p: Pass, max: int)
    requires p.now != 0 && Paid(before, vs)
    ensures Paid(After(before, p, max), Told(vs, p.outcome))
  {
    hide Blocks, Says;
    if !p.outcome.StillProcessing? {
      hide Report;
      ReportIffNews(before.0, p.outcome, max, p.now);
      BlocksOfLonger(vs, VerdictOf(p.outcome));
    }
  }

  /**
    Over any run of passes, with any answers of the store: at most one status write is committed
    per maximal block of equal verdicts, and one less while the newest verdict is not reported yet.
   */
  lemma {:induction false} AtMostOneWritePerBlock(s: StatusValue, passes: seq<Pass>, max: int)
    requires forall i :: 0 <= i < |passes| ==> passes[i].now != 0
    ensures Run(s, passes, max).1 <= Blocks(Verdicts(passes))
    ensures !UpToDate(Run(s, passes, max).0, Verdicts(passes)) ==> Run(s, passes, max).1 < Blocks(Verdicts(passes))
  {
    hide UpToDate, Blocks, After;
    if passes == [] {
      NothingToTell(s);
    } else {
      var before, p := passes[..|passes| - 1], passes[|passes| - 1];
      AtMostOneWritePerBlock(s, before, max);
      PassIsPaid(Run(s, before, max), Verdicts(before), p, max);
      assert Verdicts(passes) == Told(Verdicts(before), p.outcome);
    }
  }

  lemma NothingToTell(s: StatusValue)
    ensures UpToDate(s, []) && Blocks([]) == 0
  {
  }

  /** The resource stays active throughout, and a success leaves no failure anywhere in the list. */
  lemma {:induction false} ActiveThroughout(s: StatusValue, passes: seq<Pass>, max: int)
    requires forall i :: 0 <= i < |passes| ==> passes[i].now != 0
    requires Healthy(s)
    ensures Healthy(Run(s, passes, max).0)
    ensures passes != [] && passes[|passes| - 1].outcome.Succeeded? && passes[|passes| - 1].answer.Stored? ==>
              forall c :: c in Run(s, passes, max).0.conditions ==> !ReportsFailure(c)
  {
    if passes != [] {
      var before, p := passes[..|passes| - 1], passes[|passes| - 1];
      ActiveThroughout(s, before, max);
      var status := Run(s, before, max).0;
      if !p.outcome.StillProcessing? {
        ReportIffNews(status, p.outcome, max, p.now);
      }
      if Report(status, p.outcome, max, p.now).Some? {
        ReportKeepsActive(status, p.outcome, max, p.now);
      }
    }
  }
}
