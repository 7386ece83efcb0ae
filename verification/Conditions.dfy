/**
  The condition history of a resource status: newest entry first, a repeated condition only counted.
  Pushing is a run-length encoder, trimming keeps its newest runs.
 */
module Conditions {
  import opened Prelude

  const ACTIVE := "active"
  const DELETING := "deleting"
  const ERROR := "error"

  datatype Condition = Condition(
    state: string,
    kind: string,
    reason: string,
    message: string,
    lastTransitionAt: int,  // 0 is the unset time
    occurrences: int)

  /** What distinguishes one condition from another: everything but the time and the counter. */
  datatype Cause = Cause(state: string, kind: string, reason: string, message: string)

  function CauseOf(c: Condition): Cause {
    Cause(c.state, c.kind, c.reason, c.message)
  }

  predicate EqualStatusConditions(a: Condition, b: Condition)
    ensures EqualStatusConditions(a, b) <==> CauseOf(a) == CauseOf(b)
  {
    if a.state != b.state then false
    else if a.message != b.message then false
    else if a.kind != b.kind then false
    else if a.reason != b.reason then false
    else true
  }

  datatype StatusValue = StatusValue(state: string, conditions: seq<Condition>)

  function Stamped(c: Condition, now: int): Condition {
    if c.lastTransitionAt == 0 then c.(lastTransitionAt := now) else c
  }

  /** The list after pushing a condition that already carries its time. */
  function PushedList(cs: seq<Condition>, c: Condition): seq<Condition> {
    if cs != [] && CauseOf(cs[0]) == CauseOf(c) then
      cs[0 := cs[0].(lastTransitionAt := c.lastTransitionAt, occurrences := cs[0].occurrences + 1)]
    else
      [c.(occurrences := 1)] + cs
  }

  function Pushed(s: StatusValue, c: Condition, now: int): StatusValue {
    StatusValue(
      if s.conditions != [] && CauseOf(s.conditions[0]) == CauseOf(c) then s.state else c.state,
      PushedList(s.conditions, Stamped(c, now)))
  }

  /** At most `max` entries, the newest; no bound if `max` is not positive. */
  function Newest(cs: seq<Condition>, max: int): (r: seq<Condition>)
    ensures r <= cs
    ensures max > 0 ==> |r| <= max
  {
    if max > 0 && |cs| > max then cs[..max] else cs
  }

  /**
    The list after a push and a trim, entry by entry: the condition is in front, counted on if it was
    there already, and what stood behind stays in its order, as much of it as the bound allows.
   */
  ghost predicate PutInFront(before: seq<Condition>, after: seq<Condition>, c: Condition, max: int) {
    var repeated := before != [] && CauseOf(before[0]) == CauseOf(c);
    var behind := if repeated then before[1..] else before;
    && after != []
    && after[0].state == c.state && after[0].kind == c.kind
    && after[0].reason == c.reason && after[0].message == c.message
    && after[0].lastTransitionAt == c.lastTransitionAt
    && after[0].occurrences == (if repeated then before[0].occurrences + 1 else 1)
    && after[1..] <= behind
    && |after| == if max > 0 && |behind| + 1 > max then max else |behind| + 1
  }

  lemma PushAndTrim(s: StatusValue, c: Condition, now: int, max: int)
    requires c.lastTransitionAt == now != 0
    ensures PutInFront(s.conditions, Newest(Pushed(s, c, now).conditions, max), c, max)
    ensures Pushed(s, c, now).state == s.state || Pushed(s, c, now).state == c.state
    ensures s.conditions == [] || CauseOf(s.conditions[0]) != CauseOf(c) ==> Pushed(s, c, now).state == c.state
  {
    var pushed := Pushed(s, c, now).conditions;
    var repeated := s.conditions != [] && CauseOf(s.conditions[0]) == CauseOf(c);
    assert pushed[1..] == if repeated then s.conditions[1..] else s.conditions;
    if max > 0 && |pushed| > max {
      assert pushed[..max][1..] == pushed[1..][..max - 1];
    }
  }

  class Status {
    var state: string
    var conditions: seq<Condition>

    function Value(): StatusValue
      reads this
    {
      StatusValue(state, conditions)
    }

    constructor (value: StatusValue)
      ensures Value() == value
    {
      state, conditions := value.state, value.conditions;
    }

    method PeekConditions() returns (c: Option<Condition>)
      ensures conditions == [] ==> c == None
      ensures conditions != [] ==> c == Some(conditions[0])
    {
      c := if |conditions| == 0 then None else Some(conditions[0]);
    }

    method PushCondition(condition: Condition, now: int)
      modifies this
      ensures Value() == Pushed(old(Value()), condition, now)
    {
      var c := condition;
      if c.lastTransitionAt == 0 {
        c := c.(lastTransitionAt := now);
      }
      var previous := PeekConditions();
      if previous.None? {
        c := c.(occurrences := 1);
        conditions := [c] + conditions;
        state := c.state;
        return;
      }
      if EqualStatusConditions(previous.value, c) {
        conditions := conditions[0 := conditions[0].(lastTransitionAt := c.lastTransitionAt)];
        conditions := conditions[0 := conditions[0].(occurrences := conditions[0].occurrences + 1)];
        return;
      }
      c := c.(occurrences := 1);
      conditions := [c] + conditions;
      state := c.state;
    }

    method PopCondition()
      modifies this
      ensures state == old(state)
      ensures conditions == if old(conditions) == [] then [] else old(conditions)[..|old(conditions)| - 1]
    {
      if |conditions| == 0 { return; }
      conditions := conditions[..|conditions| - 1];
    }

    method TrimConditions(max: int)
      modifies this
      ensures Value() == old(Value()).(conditions := Newest(old(conditions), max))
    {
      while max > 0 && |conditions| > max
        invariant state == old(state) && conditions <= old(conditions)
        invariant max > 0 ==> |conditions| >= max || conditions == old(conditions)
        invariant max <= 0 ==> conditions == old(conditions)
        decreases |conditions|
      {
        PopCondition();
      }
    }
  }

  // ---------- a history of pushes ----------

  datatype Event = Event(condition: Condition, now: int)

  function StampedEvents(h: seq<Event>): (r: seq<Condition>)
    ensures |r| == |h|
    ensures forall i :: 0 <= i < |h| ==> r[i] == Stamped(h[i].condition, h[i].now)
  {
    seq(|h|, i requires 0 <= i < |h| => Stamped(h[i].condition, h[i].now))
  }

  /** Every event pushed onto an empty status, trimming after each push. */
  function Recorded(h: seq<Event>, max: int): StatusValue {
    if h == [] then StatusValue("", [])
    else
      var last := h[|h| - 1];
      var s := Pushed(Recorded(h[..|h| - 1], max), last.condition, last.now);
      s.(conditions := Newest(s.conditions, max))
  }

  method Record(h: seq<Event>, max: int) returns (status: Status)
    ensures status.Value() == Recorded(h, max)
  {
    status := new Status(StatusValue("", []));
    for n := 0 to |h|
      invariant fresh(status)
      invariant status.Value() == Recorded(h[..n], max)
    {
      assert h[..n + 1][..n] == h[..n];
      status.PushCondition(h[n].condition, h[n].now);
      status.TrimConditions(max);
    }
    assert h[..|h|] == h;
  }

  // ---------- what a run-length encoding is ----------

  /** The last `n` events are a maximal block of equal causes. */
  ghost predicate MaximalBlock(h: seq<Condition>, n: int) {
    && 0 < n <= |h|
    && (forall i :: |h| - n <= i < |h| ==> CauseOf(h[i]) == CauseOf(h[|h| - 1]))
    && (n < |h| ==> CauseOf(h[|h| - n - 1]) != CauseOf(h[|h| - 1]))
  }

  /**
    The runs, newest first, are the maximal blocks of equal causes in the history, oldest event
    first; each carries the length of its block and the time of the block's last event.
   */
  ghost predicate IsRunLengthEncoding(h: seq<Condition>, rs: seq<Condition>)
    decreases |rs|
  {
    if rs == [] then h == []
    else
      && MaximalBlock(h, rs[0].occurrences)
      && CauseOf(rs[0]) == CauseOf(h[|h| - 1])
      && rs[0].lastTransitionAt == h[|h| - 1].lastTransitionAt
      && IsRunLengthEncoding(h[..|h| - rs[0].occurrences], rs[1..])
  }

  /** A history has only one run-length encoding. */
  lemma {:induction false} EncodingIsUnique(h: seq<Condition>, a: seq<Condition>, b: seq<Condition>)
    requires IsRunLengthEncoding(h, a) && IsRunLengthEncoding(h, b)
    ensures a == b
    decreases |a|
  {
    if h != [] {
      MaximalBlockIsUnique(h, a[0].occurrences, b[0].occurrences);
      EncodingIsUnique(h[..|h| - a[0].occurrences], a[1..], b[1..]);
      assert a == [a[0]] + a[1..] && b == [b[0]] + b[1..];
    }
  }

  lemma MaximalBlockIsUnique(h: seq<Condition>, m: int, n: int)
    requires MaximalBlock(h, m) && MaximalBlock(h, n)
    ensures m == n
  {
    if m < n { ShorterBlockIsNotMaximal(h, m, n); }
    if n < m { ShorterBlockIsNotMaximal(h, n, m); }
  }

  lemma ShorterBlockIsNotMaximal(h: seq<Condition>, m: int, n: int)
    requires 0 < m < n && MaximalBlock(h, n)
    ensures !MaximalBlock(h, m)
  {
    assert CauseOf(h[|h| - m - 1]) == CauseOf(h[|h| - 1]);
  }

  // ---------- pushing is encoding ----------

  function RunsOf(h: seq<Condition>): seq<Condition> {
    if h == [] then [] else PushedList(RunsOf(h[..|h| - 1]), h[|h| - 1])
  }

  lemma NothingEncoded()
    ensures IsRunLengthEncoding([], [])
  {
  }

  lemma {:induction false} PushingEncodes(h: seq<Condition>)
    ensures IsRunLengthEncoding(h, RunsOf(h))
  {
    hide IsRunLengthEncoding, PushedList;
    if h == [] {
      NothingEncoded();
    } else {
      var before, c := h[..|h| - 1], h[|h| - 1];
      PushingEncodes(before);
      PushExtendsEncoding(before, RunsOf(before), c);
      assert before + [c] == h;
    }
  }

  lemma PushExtendsEncoding(h: seq<Condition>, rs: seq<Condition>, c: Condition)
    requires IsRunLengthEncoding(h, rs)
    ensures IsRunLengthEncoding(h + [c], PushedList(rs, c))
  {
    var longer, pushed := h + [c], PushedList(rs, c);
    var n := pushed[0].occurrences;
    if rs != [] && CauseOf(rs[0]) == CauseOf(c) {
      assert pushed[1..] == rs[1..];
      assert longer[..|longer| - n] == h[..|h| - rs[0].occurrences];
    } else {
      assert pushed[1..] == rs;
      assert longer[..|longer| - n] == h;
    }
    assert MaximalBlock(longer, n);
  }

  lemma TrimmingForgetsOld(runs: seq<Condition>, c: Condition, max: int)
    ensures Newest(PushedList(Newest(runs, max), c), max) == Newest(PushedList(runs, c), max)
    ensures PushedList(runs, c)[0].state == c.state
  {
  }

  lemma StampedFront(h: seq<Event>)
    requires h != []
    ensures StampedEvents(h)[..|h| - 1] == StampedEvents(h[..|h| - 1])
  {
  }

  /** Trimming between pushes forgets old runs only: nothing newer is changed by it. */
  lemma {:induction false} TrimmedPushes(h: seq<Event>, max: int)
    ensures Recorded(h, max).conditions == Newest(RunsOf(StampedEvents(h)), max)
    ensures Recorded(h, max).state == if h == [] then "" else h[|h| - 1].condition.state
    ensures h != [] ==>
              RunsOf(StampedEvents(h)) != [] && RunsOf(StampedEvents(h))[0].state == h[|h| - 1].condition.state
  {
    if h == [] {
      assert StampedEvents(h) == [];
    } else {
      var before, last := h[..|h| - 1], h[|h| - 1];
      TrimmedPushes(before, max);
      StampedFront(h);
      var runs, c := RunsOf(StampedEvents(before)), Stamped(last.condition, last.now);
      assert RunsOf(StampedEvents(h)) == PushedList(runs, c);
      TrimmingForgetsOld(runs, c, max);
      NewestHead(runs, max);
      if before == [] {
        assert StampedEvents(before) == [];
      }
      hide RunsOf, PushedList, StampedEvents, Newest;
      PushedState(Recorded(before, max), last.condition, last.now);
    }
  }

  lemma NewestHead(cs: seq<Condition>, max: int)
    ensures Newest(cs, max) == [] <==> cs == []
    ensures cs != [] ==> Newest(cs, max)[0] == cs[0]
  {
  }

  lemma PushedState(s: StatusValue, c: Condition, now: int)
    requires s.conditions != [] ==> s.conditions[0].state == s.state
    ensures Pushed(s, c, now).state == c.state
    ensures Pushed(s, c, now).conditions == PushedList(s.conditions, Stamped(c, now))
  {
  }

  /**
    After any pushes, each followed by a trim, the conditions are the newest `max` runs of the
    run-length encoding of everything pushed, and the state is that of the newest condition.
   */
  lemma BoundedRunLength(h: seq<Event>, max: int, rs: seq<Condition>)
    requires IsRunLengthEncoding(StampedEvents(h), rs)
    ensures Recorded(h, max).conditions == Newest(rs, max)
    ensures h != [] ==> rs != [] && Recorded(h, max).state == rs[0].state == h[|h| - 1].condition.state
  {
    TrimmedPushes(h, max);
    PushingEncodes(StampedEvents(h));
    EncodingIsUnique(StampedEvents(h), rs, RunsOf(StampedEvents(h)));
  }
}
