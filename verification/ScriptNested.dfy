/** What becomes of the tasks that callbacks schedule while an update is going on. */
module ScriptNested {
  import opened ScriptTasks
  import opened ScriptTiming
  import opened Wrappers
  import Sequences

  predicate Schedules(op: Op) {
    op.Schedule? || op.SchedulePeriodic?
  }

  /** How many tasks the calls ask for. */
  function Asked(ops: seq<Op>): nat
    decreases |ops|
  {
    if ops == [] then 0 else (if Schedules(ops[0]) then 1 else 0) + Asked(ops[1..])
  }

  /** All the calls that the callbacks of these tasks make, in order. */
  function CallsOf(ran: seq<nat>, effects: nat -> Effect): seq<Op>
    decreases |ran|
  {
    if ran == [] then [] else effects(ran[0]).ops + CallsOf(ran[1..], effects)
  }

  /** The task that a call asks for, with its whole first delay: milliseconds become microseconds. */
  ghost predicate IsAskedFor(t: Task, id: nat, op: Op) {
    && t.id == id && !t.cancelled
    && match op
       case Schedule(delay) => !t.periodic && t.remaining == delay * 1000
       case SchedulePeriodic(interval, initialDelay) =>
         t.periodic && t.interval == interval * 1000
         && t.remaining == (if initialDelay > 0 then initialDelay * 1000 else interval * 1000)
       case _ => false
  }

  // ----- counting -----

  lemma {:induction false} AskedConcat(a: seq<Op>, b: seq<Op>)
    ensures Asked(a + b) == Asked(a) + Asked(b)
    decreases |a|
  {
    if a == [] {
      assert a + b == b;
    } else {
      assert (a + b)[1..] == a[1..] + b;
      AskedConcat(a[1..], b);
    }
  }

  lemma CancelsInConcat(a: seq<Op>, b: seq<Op>, id: nat)
    ensures CancelsIn(a + b, id) <==> CancelsIn(a, id) || CancelsIn(b, id)
  {
    var all := a + b;
    if CancelsIn(a, id) {
      var k :| 0 <= k < |a| && Cancels(a[k], id);
      assert Cancels(all[k], id);
    }
    if CancelsIn(b, id) {
      var k :| 0 <= k < |b| && Cancels(b[k], id);
      assert Cancels(all[|a| + k], id);
    }
    if CancelsIn(all, id) {
      var k :| 0 <= k < |all| && Cancels(all[k], id);
      if k >= |a| {
        assert Cancels(b[k - |a|], id);
      }
    }
  }

  lemma MarkedTwice(t: Task, a: seq<Op>, b: seq<Op>)
    ensures Marked(Marked(t, a), b) == Marked(t, a + b)
  {
    CancelsInConcat(a, b, t.id);
  }

  // ----- the calls of one callback -----

  /** After the calls, the task asked for by call `q` stands at place `p`, cancelled if a later call
      cancels it. */
  ghost predicate StandsAt(s: State, p: nat, ops: seq<Op>, q: nat, id: nat) {
    && p < |s.tasks| && q < |ops|
    && exists t :: IsAskedFor(t, id, ops[q]) && s.tasks[p] == Marked(t, ops[q + 1..])
  }

  lemma DoAsks(s: State, op: Op)
    ensures Do(s, op).nextId == s.nextId + Asked([op]) && |Do(s, op).tasks| == |s.tasks| + Asked([op])
    ensures Schedules(op) ==> IsAskedFor(Do(s, op).tasks[|s.tasks|], s.nextId, op)
  {
    assert [op][1..] == [];
  }

  lemma {:induction false} DoAllCounts(s: State, ops: seq<Op>)
    ensures DoAll(s, ops).nextId == s.nextId + Asked(ops) && |DoAll(s, ops).tasks| == |s.tasks| + Asked(ops)
    decreases |ops|
  {
    if ops == [] {
    } else {
      DoAsks(s, ops[0]);
      DoAllCounts(Do(s, ops[0]), ops[1..]);
      assert Asked([ops[0]]) == (if Schedules(ops[0]) then 1 else 0) by {
        assert [ops[0]][1..] == [];
      }
    }
  }

  lemma {:induction false} DoAllAsks(s: State, ops: seq<Op>, q: nat)
    requires Ordered(s) && q < |ops| && Schedules(ops[q])
    ensures StandsAt(DoAll(s, ops), |s.tasks| + Asked(ops[..q]), ops, q, s.nextId + Asked(ops[..q]))
    decreases |ops|
  {
    var next := Do(s, ops[0]);
    DoKeepsOrder(s, ops[0]);
    DoAsks(s, ops[0]);
    if q == 0 {
      DoAllIsExact(next, ops[1..]);
      assert ops[..0] == [];
      assert DoAll(s, ops).tasks[|s.tasks|] == Marked(next.tasks[|s.tasks|], ops[1..]);
    } else {
      DoAllAsks(next, ops[1..], q - 1);
      assert ops[..q] == [ops[0]] + ops[1..][..q - 1];
      AskedConcat([ops[0]], ops[1..][..q - 1]);
      assert ops[1..][q - 1 + 1..] == ops[q + 1..];
    }
  }

  // ----- all the callbacks of an update -----

  /** The calls of the first callback, none if it does not run. */
  function FirstCalls(s: State, place: nat, effects: nat -> Effect): seq<Op>
    requires place < |s.tasks|
  {
    if s.tasks[place].cancelled then [] else effects(s.tasks[place].id).ops
  }

  lemma CallsStep(s: State, places: seq<nat>, effects: nat -> Effect)
    requires Places(places, 0, |s.tasks|) && places != []
    ensures var rest := CallsOf(Ran(RunOne(s, places[0], effects), places[1..], effects), effects);
            (CallsOf(Ran(s, places, effects), effects)
          == FirstCalls(s, places[0], effects) + rest)
  {
    var ran := Ran(RunOne(s, places[0], effects), places[1..], effects);
    if s.tasks[places[0]].cancelled {
      assert Ran(s, places, effects) == ran;
      assert [] + CallsOf(ran, effects) == CallsOf(ran, effects);
    } else {
      assert Ran(s, places, effects) == [s.tasks[places[0]].id] + ran;
      assert Ran(s, places, effects)[1..] == ran;
    }
  }

  lemma RunOneCounts(s: State, place: nat, effects: nat -> Effect)
    requires place < |s.tasks|
    ensures RunOne(s, place, effects).nextId == s.nextId + Asked(FirstCalls(s, place, effects))
    ensures |RunOne(s, place, effects).tasks| == |s.tasks| + Asked(FirstCalls(s, place, effects))
  {
    if !s.tasks[place].cancelled {
      DoAllCounts(s, effects(s.tasks[place].id).ops);
    }
  }

  lemma {:induction false} RunAllCounts(s: State, places: seq<nat>, effects: nat -> Effect)
    requires Places(places, 0, |s.tasks|)
    ensures var calls := CallsOf(Ran(s, places, effects), effects);
      && RunAll(s, places, effects).nextId == s.nextId + Asked(calls)
      && |RunAll(s, places, effects).tasks| == |s.tasks| + Asked(calls)
    decreases |places|
  {
    if places == [] {
    } else {
      var next := RunOne(s, places[0], effects);
      RunOneCounts(s, places[0], effects);
      RunAllCounts(next, places[1..], effects);
      CallsStep(s, places, effects);
      AskedConcat(FirstCalls(s, places[0], effects), CallsOf(Ran(next, places[1..], effects), effects));
    }
  }

  /** The places behind those of `s` hold the ids from its counter on. */
  ghost predicate NewIdsFollow(s: State, s': State) {
    |s.tasks| <= |s'.tasks| && forall p :: |s.tasks| <= p < |s'.tasks| ==> s'.tasks[p].id == s.nextId + (p - |s.tasks|)
  }

  lemma {:induction false} DoAllNewIds(s: State, ops: seq<Op>)
    requires Ordered(s)
    ensures NewIdsFollow(s, DoAll(s, ops))
    decreases |ops|
  {
    if ops == [] {
    } else {
      DoAsks(s, ops[0]);
      DoKeepsOrder(s, ops[0]);
      DoAllNewIds(Do(s, ops[0]), ops[1..]);
      DoAllIsExact(Do(s, ops[0]), ops[1..]);
    }
  }

  lemma RunOneNewIds(s: State, place: nat, effects: nat -> Effect)
    requires Ordered(s) && place < |s.tasks|
    ensures NewIdsFollow(s, RunOne(s, place, effects))
  {
    if !s.tasks[place].cancelled {
      DoAllNewIds(s, effects(s.tasks[place].id).ops);
    }
  }

  lemma {:induction false} RunAllNewIds(s: State, places: seq<nat>, effects: nat -> Effect)
    requires Ordered(s) && Places(places, 0, |s.tasks|)
    ensures NewIdsFollow(s, RunAll(s, places, effects))
    decreases |places|
  {
    if places == [] {
    } else {
      var next := RunOne(s, places[0], effects);
      RunOneKeepsOrder(s, places[0], effects);
      RunOneNewIds(s, places[0], effects);
      RunOneCounts(s, places[0], effects);
      RunAllNewIds(next, places[1..], effects);
      RunAllKeepsOrder(next, places[1..], effects);
    }
  }

  /** A task that is not itself to run is changed by cancelling calls only. */
  lemma {:induction false} RunAllMarks(s: State, places: seq<nat>, effects: nat -> Effect, p: nat)
    requires Ordered(s) && Places(places, 0, |s.tasks|) && p < |s.tasks| && p !in places
    ensures RunAll(s, places, effects).tasks[p] == Marked(s.tasks[p], CallsOf(Ran(s, places, effects), effects))
    decreases |places|
  {
    if places == [] {
    } else {
      var next := RunOne(s, places[0], effects);
      RunOneIsExact(s, places[0], effects);
      CallsStep(s, places, effects);
      assert p != places[0] && p !in places[1..];
      RunAllMarks(next, places[1..], effects, p);
      MarkedTwice(s.tasks[p], FirstCalls(s, places[0], effects), CallsOf(Ran(next, places[1..], effects), effects));
    }
  }

  lemma StandsLater(s: State, last: State, p: nat, ops: seq<Op>, more: seq<Op>, q: nat, id: nat)
    requires StandsAt(s, p, ops, q, id) && p < |last.tasks| && last.tasks[p] == Marked(s.tasks[p], more)
    ensures StandsAt(last, p, ops + more, q, id)
  {
    var t :| IsAskedFor(t, id, ops[q]) && s.tasks[p] == Marked(t, ops[q + 1..]);
    MarkedTwice(t, ops[q + 1..], more);
    assert (ops + more)[q + 1..] == ops[q + 1..] + more && (ops + more)[q] == ops[q];
  }

  lemma StandsAfter(last: State, p: nat, before: seq<Op>, ops: seq<Op>, q: nat, id: nat)
    requires StandsAt(last, p, ops, q, id)
    ensures StandsAt(last, p, before + ops, |before| + q, id)
  {
    assert (before + ops)[|before| + q + 1..] == ops[q + 1..] && (before + ops)[|before| + q] == ops[q];
  }

  /** The task asked for by call `q` of `calls` stands where it should in `last`. */
  ghost predicate Placed(s: State, last: State, calls: seq<Op>, q: nat) {
    q < |calls| && StandsAt(last, |s.tasks| + Asked(calls[..q]), calls, q, s.nextId + Asked(calls[..q]))
  }

  lemma AskedUpTo(ops: seq<Op>, rest: seq<Op>, q: nat)
    requires q <= |rest|
    ensures Asked((ops + rest)[..|ops| + q]) == Asked(ops) + Asked(rest[..q])
  {
    assert (ops + rest)[..|ops| + q] == ops + rest[..q];
    AskedConcat(ops, rest[..q]);
  }

  lemma PlacedAfter(s: State, next: State, last: State, ops: seq<Op>, rest: seq<Op>, q: nat)
    requires next.nextId == s.nextId + Asked(ops) && |next.tasks| == |s.tasks| + Asked(ops)
    requires Placed(next, last, rest, q)
    ensures Placed(s, last, ops + rest, |ops| + q)
  {
    StandsAfter(last, |next.tasks| + Asked(rest[..q]), ops, rest, q, next.nextId + Asked(rest[..q]));
    AskedUpTo(ops, rest, q);
  }

  lemma PlacedBefore(s: State, next: State, last: State, ops: seq<Op>, rest: seq<Op>, q: nat)
    requires Placed(s, next, ops, q)
    requires var p := |s.tasks| + Asked(ops[..q]); p < |last.tasks| && last.tasks[p] == Marked(next.tasks[p], rest)
    ensures Placed(s, last, ops + rest, q)
  {
    StandsLater(next, last, |s.tasks| + Asked(ops[..q]), ops, rest, q, s.nextId + Asked(ops[..q]));
    assert (ops + rest)[..q] == ops[..q];
  }

  lemma PlacedStays(s: State, next: State, places: seq<nat>, effects: nat -> Effect, ops: seq<Op>, q: nat)
    requires Placed(s, next, ops, q) && Ordered(next)
    requires Places(places, 0, |next.tasks|) && |s.tasks| + Asked(ops[..q]) !in places
    ensures Placed(s, RunAll(next, places, effects), ops + CallsOf(Ran(next, places, effects), effects), q)
  {
    RunAllMarks(next, places, effects, |s.tasks| + Asked(ops[..q]));
    PlacedBefore(s, next, RunAll(next, places, effects), ops, CallsOf(Ran(next, places, effects), effects), q);
  }

  lemma {:induction false} RunAllAsks(s: State, places: seq<nat>, effects: nat -> Effect, q: nat)
    requires Ordered(s) && Places(places, 0, |s.tasks|)
    requires var calls := CallsOf(Ran(s, places, effects), effects); q < |calls| && Schedules(calls[q])
    ensures Placed(s, RunAll(s, places, effects), CallsOf(Ran(s, places, effects), effects), q)
    decreases |places|
  {
    var next, ops := RunOne(s, places[0], effects), FirstCalls(s, places[0], effects);
    CallsStep(s, places, effects);
    RunOneKeepsOrder(s, places[0], effects);
    if q < |ops| {
      RunOneAsks(s, places[0], effects, q);
      PlacedStays(s, next, places[1..], effects, ops, q);
    } else {
      RunOneCounts(s, places[0], effects);
      RunAllAsks(next, places[1..], effects, q - |ops|);
      PlacedAfter(s, next, RunAll(s, places, effects), ops, CallsOf(Ran(next, places[1..], effects), effects),
                  q - |ops|);
    }
  }

  lemma RunOneAsks(s: State, place: nat, effects: nat -> Effect, q: nat)
    requires Ordered(s) && place < |s.tasks| && !s.tasks[place].cancelled
    requires var ops := effects(s.tasks[place].id).ops; q < |ops| && Schedules(ops[q])
    ensures Placed(s, RunOne(s, place, effects), effects(s.tasks[place].id).ops, q)
  {
    DoAllAsks(s, effects(s.tasks[place].id).ops, q);
  }

  // ----- the update -----

  /** The calls that the callbacks of an update make, in order. */
  function CallsIn(s: State, elapsed: int, effects: nat -> Effect): seq<Op> {
    CallsOf(Fired(s, elapsed, effects), effects)
  }

  /** An update draws one id for each scheduling call that its callbacks make. */
  lemma UpdateCountsCalls(s: State, elapsed: int, effects: nat -> Effect)
    ensures Updated(s, elapsed, effects).nextId == s.nextId + Asked(CallsIn(s, elapsed, effects))
  {
    RunAllCounts(Ticked(s, elapsed), DueFrom(s.tasks, elapsed, 0), effects);
  }

  /** What the n-th of them asks for is in the list after the update, with its id and its whole first
      delay, unless a later call of the update cancels it; then it is gone. It does not fire before the
      next update. */
  lemma UpdateSchedules(s: State, elapsed: int, effects: nat -> Effect, q: nat) returns (t: Task)
    requires Ordered(s) && q < |CallsIn(s, elapsed, effects)| && Schedules(CallsIn(s, elapsed, effects)[q])
    ensures var calls := CallsIn(s, elapsed, effects);
      && IsAskedFor(t, s.nextId + Asked(calls[..q]), calls[q])
      && (if CancelsIn(calls[q + 1..], t.id) then Gone(Updated(s, elapsed, effects), t.id)
          else Live(Updated(s, elapsed, effects), t))
    ensures t.id !in Fired(s, elapsed, effects)
  {
    var calls, places := CallsIn(s, elapsed, effects), DueFrom(s.tasks, elapsed, 0);
    var ran := RunAll(Ticked(s, elapsed), places, effects);
    RunAllAsks(Ticked(s, elapsed), places, effects, q);
    RunAllKeepsOrder(Ticked(s, elapsed), places, effects);
    t := PlacedIsLeft(Ticked(s, elapsed), ran, calls, q);
    NotYetFired(s, elapsed, effects, t.id);
  }

  lemma PlacedIsLeft(s: State, ran: State, calls: seq<Op>, q: nat) returns (t: Task)
    requires Placed(s, ran, calls, q) && Ordered(ran)
    ensures IsAskedFor(t, s.nextId + Asked(calls[..q]), calls[q])
    ensures var left := ran.(tasks := Remaining(ran.tasks));
            if CancelsIn(calls[q + 1..], t.id) then Gone(left, t.id) else Live(left, t)
  {
    var p := |s.tasks| + Asked(calls[..q]);
    t :| IsAskedFor(t, s.nextId + Asked(calls[..q]), calls[q]) && ran.tasks[p] == Marked(t, calls[q + 1..]);
    AfterErasing(ran, p);
  }

  lemma NotYetFired(s: State, elapsed: int, effects: nat -> Effect, id: nat)
    requires Ordered(s) && id >= s.nextId
    ensures id !in Fired(s, elapsed, effects)
  {
    UpdateRunsInOrder(s, elapsed, effects);
  }

  lemma RanIds(s: State, elapsed: int, effects: nat -> Effect)
    requires Ordered(s)
    ensures var ran := RunAll(Ticked(s, elapsed), DueFrom(s.tasks, elapsed, 0), effects);
      NewIdsFollow(s, ran) && forall p :: 0 <= p < |s.tasks| ==> ran.tasks[p].id == s.tasks[p].id
  {
    RunAllKeepsOrder(Ticked(s, elapsed), DueFrom(s.tasks, elapsed, 0), effects);
    RunAllNewIds(Ticked(s, elapsed), DueFrom(s.tasks, elapsed, 0), effects);
  }

  lemma OldOrNew(s: State, ran: State, t: Task)
    requires NewIdsFollow(s, ran) && t in ran.tasks
    requires forall p :: 0 <= p < |s.tasks| ==> ran.tasks[p].id == s.tasks[p].id
    ensures (exists u :: u in s.tasks && u.id == t.id) || s.nextId <= t.id
  {
    var p: nat :| p < |ran.tasks| && ran.tasks[p] == t;
    if p < |s.tasks| {
      assert s.tasks[p] in s.tasks;
    }
  }

  /** Nothing else is new: what is in the list after an update was there before, or was asked for. */
  lemma UpdateAddsOnly(s: State, elapsed: int, effects: nat -> Effect, t: Task)
    requires Ordered(s) && t in Updated(s, elapsed, effects).tasks
    ensures !t.cancelled && t.id < Updated(s, elapsed, effects).nextId
    ensures (exists u :: u in s.tasks && u.id == t.id) || s.nextId <= t.id
  {
    var ran := RunAll(Ticked(s, elapsed), DueFrom(s.tasks, elapsed, 0), effects);
    RemainingIsExact(ran.tasks);
    UpdatedKeepsOrder(s, elapsed, effects);
    RanIds(s, elapsed, effects);
    OldOrNew(s, ran, t);
  }

  // ----- when such tasks fire -----

  /** The id that call `q` of the update draws. */
  function NestedId(s: State, elapsed: int, effects: nat -> Effect, q: nat): nat
    requires q <= |CallsIn(s, elapsed, effects)|
  {
    s.nextId + Asked(CallsIn(s, elapsed, effects)[..q])
  }

  /** Call `q` of the update is `op`, and no later one cancels what it asks for. */
  ghost predicate Nested(s: State, elapsed: int, effects: nat -> Effect, q: nat, op: Op) {
    var calls := CallsIn(s, elapsed, effects);
    q < |calls| && calls[q] == op && !CancelsIn(calls[q + 1..], NestedId(s, elapsed, effects, q))
  }

  lemma NestedIsLive(s: State, elapsed: int, effects: nat -> Effect, q: nat, op: Op) returns (t: Task)
    requires Ordered(s) && Nested(s, elapsed, effects, q, op) && Schedules(op)
    ensures IsAskedFor(t, NestedId(s, elapsed, effects, q), op)
    ensures Ordered(Updated(s, elapsed, effects)) && Live(Updated(s, elapsed, effects), t)
  {
    t := UpdateSchedules(s, elapsed, effects, q);
    UpdatedKeepsOrder(s, elapsed, effects);
  }

  /** A one-shot that a callback schedules, and nothing cancels, fires exactly in the first later update
      by which its delay has passed. */
  lemma NestedOneShotFires(s: State, elapsed: int, effects: nat -> Effect, q: nat, delay: int, events: seq<Event>,
                           k: nat)
    requires Ordered(s) && k < |events| && Nested(s, elapsed, effects, q, Schedule(delay))
    requires SparesAll(Updated(s, elapsed, effects), events, NestedId(s, elapsed, effects, q))
    ensures Firings(Updated(s, elapsed, effects), events, NestedId(s, elapsed, effects, q))[k]
       <==> events[k].Update? && Clock(events, k + 1) >= delay * 1000
            && forall j :: 0 <= j < k && events[j].Update? ==> Clock(events, j + 1) < delay * 1000
  {
    var t := NestedIsLive(s, elapsed, effects, q, Schedule(delay));
    FiresAsAlone(Updated(s, elapsed, effects), events, Some(t), t.id);
    OneShotAlone(t, events, k);
  }

  /** A periodic task that a callback schedules keeps its times from the end of that update on. */
  lemma NestedPeriodicFires(s: State, elapsed: int, effects: nat -> Effect, q: nat, interval: int, initialDelay: int,
                            events: seq<Event>, longest: int, n: nat)
    requires Ordered(s) && interval > 0 && ShortTicks(events, longest)
    requires Nested(s, elapsed, effects, q, SchedulePeriodic(interval, initialDelay))
    requires SparesAll(Updated(s, elapsed, effects), events, NestedId(s, elapsed, effects, q))
    requires n < |Times(Firings(Updated(s, elapsed, effects), events, NestedId(s, elapsed, effects, q)), events, 0)|
    ensures var first := (if initialDelay > 0 then initialDelay else interval) * 1000;
            OnTime(Times(Firings(Updated(s, elapsed, effects), events, NestedId(s, elapsed, effects, q)), events, 0),
                   n, first, interval * 1000, longest)
  {
    var t := NestedIsLive(s, elapsed, effects, q, SchedulePeriodic(interval, initialDelay));
    LivePeriodicFires(Updated(s, elapsed, effects), t, events, longest, n);
  }

  /** ... and does fire for the n-th time once enough time has passed. */
  lemma NestedPeriodicGoesOn(s: State, elapsed: int, effects: nat -> Effect, q: nat, interval: int, initialDelay: int,
                             events: seq<Event>, longest: nat, n: nat)
    requires Ordered(s) && interval > 0 && ShortTicks(events, longest)
    requires Nested(s, elapsed, effects, q, SchedulePeriodic(interval, initialDelay))
    requires SparesAll(Updated(s, elapsed, effects), events, NestedId(s, elapsed, effects, q))
    requires var first := (if initialDelay > 0 then initialDelay else interval) * 1000;
             Clock(events, |events|) >= first + n * (interval * 1000) + (n + 1) * longest
    ensures n < |Times(Firings(Updated(s, elapsed, effects), events, NestedId(s, elapsed, effects, q)), events, 0)|
  {
    var t := NestedIsLive(s, elapsed, effects, q, SchedulePeriodic(interval, initialDelay));
    LivePeriodicGoesOn(Updated(s, elapsed, effects), t, events, longest, n);
  }
}
