/** When scripted tasks fire, over any run of updates and of calls made between and inside them. */
module ScriptTiming {
  import opened ScriptTasks
  import opened Wrappers

  // ----- one callback -----

  function Marked(t: Task, ops: seq<Op>): Task {
    if CancelsIn(ops, t.id) then t.(cancelled := true) else t
  }

  /** What one callback does to every task of the list. */
  lemma RunOneIsExact(s: State, place: nat, effects: nat -> Effect)
    requires Ordered(s) && place < |s.tasks|
    ensures Ordered(RunOne(s, place, effects)) && RunOne(s, place, effects).nextId >= s.nextId
    ensures forall p :: 0 <= p < |s.tasks| ==>
      var t, effect := s.tasks[place], effects(s.tasks[place].id);
      RunOne(s, place, effects).tasks[p] == if t.cancelled then s.tasks[p]
                                            else if p == place then Settle(Marked(s.tasks[p], effect.ops), effect)
                                            else Marked(s.tasks[p], effect.ops)
  {
    if !s.tasks[place].cancelled {
      DoAllIsExact(s, effects(s.tasks[place].id).ops);
    }
  }

  lemma RunOneKeepsOrder(s: State, place: nat, effects: nat -> Effect)
    requires Ordered(s) && place < |s.tasks|
    ensures Ordered(RunOne(s, place, effects)) && RunOne(s, place, effects).nextId >= s.nextId
  {
    RunOneIsExact(s, place, effects);
  }

  lemma {:induction false} RunAllKeepsOrder(s: State, places: seq<nat>, effects: nat -> Effect)
    requires Ordered(s) && Places(places, 0, |s.tasks|)
    ensures Ordered(RunAll(s, places, effects)) && RunAll(s, places, effects).nextId >= s.nextId
    ensures forall p :: 0 <= p < |s.tasks| ==> RunAll(s, places, effects).tasks[p].id == s.tasks[p].id
    decreases |places|
  {
    if places == [] {
    } else {
      RunOneIsExact(s, places[0], effects);
      RunAllKeepsOrder(RunOne(s, places[0], effects), places[1..], effects);
    }
  }

  // ----- all the callbacks of an update -----

  /** None of the callbacks that ran cancelled the task. */
  predicate Spared(ran: seq<nat>, effects: nat -> Effect, id: nat) {
    forall k :: 0 <= k < |ran| ==> !CancelsIn(effects(ran[k]).ops, id)
  }

  lemma {:induction false} RunAllTracks(s: State, places: seq<nat>, effects: nat -> Effect, p: nat)
    requires Ordered(s) && Places(places, 0, |s.tasks|) && p < |s.tasks|
    requires p in places ==> !s.tasks[p].cancelled
    requires Spared(Ran(s, places, effects), effects, s.tasks[p].id)
    ensures RunAll(s, places, effects).tasks[p]
         == if p in places then Settle(s.tasks[p], effects(s.tasks[p].id)) else s.tasks[p]
    ensures s.tasks[p].id in Ran(s, places, effects) <==> p in places
    decreases |places|
  {
    if places == [] {
    } else {
      var next := RunOne(s, places[0], effects);
      RunOneIsExact(s, places[0], effects);
      var ran := Ran(next, places[1..], effects);
      if s.tasks[places[0]].cancelled {
        assert Ran(s, places, effects) == ran;
      } else {
        assert Ran(s, places, effects) == [s.tasks[places[0]].id] + ran;
        assert !CancelsIn(effects(Ran(s, places, effects)[0]).ops, s.tasks[p].id);
        assert Spared(ran, effects, s.tasks[p].id) by {
          assert forall k :: 0 <= k < |ran| ==> ran[k] == Ran(s, places, effects)[k + 1];
        }
      }
      assert p in places <==> p == places[0] || p in places[1..];
      assert s.tasks[p].id == s.tasks[places[0]].id ==> p == places[0];
      RunAllTracks(next, places[1..], effects, p);
    }
  }

  /** A cancelled task does not run and stays cancelled. */
  lemma {:induction false} RunAllSkips(s: State, places: seq<nat>, effects: nat -> Effect, p: nat)
    requires Ordered(s) && Places(places, 0, |s.tasks|) && p < |s.tasks| && s.tasks[p].cancelled
    ensures RunAll(s, places, effects).tasks[p].cancelled && s.tasks[p].id !in Ran(s, places, effects)
    decreases |places|
  {
    if places == [] {
    } else {
      RunOneIsExact(s, places[0], effects);
      assert s.tasks[p].id == s.tasks[places[0]].id ==> p == places[0];
      RunAllSkips(RunOne(s, places[0], effects), places[1..], effects, p);
    }
  }

  /** A task that some callback cancelled ends up cancelled, whether or not it ran before. */
  lemma {:induction false} RunAllCancels(s: State, places: seq<nat>, effects: nat -> Effect, p: nat)
    requires Ordered(s) && Places(places, 0, |s.tasks|) && p < |s.tasks|
    requires !Spared(Ran(s, places, effects), effects, s.tasks[p].id)
    ensures RunAll(s, places, effects).tasks[p].cancelled
    decreases |places|
  {
    var next := RunOne(s, places[0], effects);
    RunOneIsExact(s, places[0], effects);
    var ran := Ran(next, places[1..], effects);
    if next.tasks[p].cancelled {
      RunAllSkips(next, places[1..], effects, p);
    } else {
      var all := Ran(s, places, effects);
      var k :| 0 <= k < |all| && CancelsIn(effects(all[k]).ops, s.tasks[p].id);
      assert all == ran || (k > 0 && all[k] == ran[k - 1]);
      RunAllCancels(next, places[1..], effects, p);
    }
  }

  /** Every one of the ids belongs to a task at one of the places. */
  ghost predicate AtPlaces(s: State, places: seq<nat>, ids: seq<nat>)
    requires Places(places, 0, |s.tasks|)
  {
    forall k :: 0 <= k < |ids| ==> AtPlace(s, places, ids[k])
  }

  ghost predicate AtPlace(s: State, places: seq<nat>, id: nat)
    requires Places(places, 0, |s.tasks|)
  {
    exists i :: 0 <= i < |places| && s.tasks[places[i]].id == id
  }

  lemma AtLaterPlace(s: State, next: State, places: seq<nat>, id: nat)
    requires Places(places, 0, |s.tasks|) && places != [] && |next.tasks| >= |s.tasks|
    requires forall p :: 0 <= p < |s.tasks| ==> next.tasks[p].id == s.tasks[p].id
    requires Ordered(s) && AtPlace(next, places[1..], id)
    ensures AtPlace(s, places, id) && s.tasks[places[0]].id < id
  {
    var i :| 0 <= i < |places[1..]| && next.tasks[places[1..][i]].id == id;
    assert s.tasks[places[i + 1]].id == id;
  }

  lemma {:induction false} RanAtPlaces(s: State, places: seq<nat>, effects: nat -> Effect)
    requires Ordered(s) && Places(places, 0, |s.tasks|)
    ensures AtPlaces(s, places, Ran(s, places, effects))
    decreases |places|
  {
    if places == [] {
    } else {
      var next := RunOne(s, places[0], effects);
      RunOneIsExact(s, places[0], effects);
      RanAtPlaces(next, places[1..], effects);
      AtLaterPlaces(s, next, places, Ran(next, places[1..], effects));
    }
  }

  lemma AtLaterPlaces(s: State, next: State, places: seq<nat>, ran: seq<nat>)
    requires Places(places, 0, |s.tasks|) && places != [] && |next.tasks| >= |s.tasks|
    requires forall p :: 0 <= p < |s.tasks| ==> next.tasks[p].id == s.tasks[p].id
    requires Ordered(s) && AtPlaces(next, places[1..], ran)
    ensures AtPlaces(s, places, ran) && AtPlaces(s, places, [s.tasks[places[0]].id] + ran)
  {
    forall k | 0 <= k < |ran| ensures AtPlace(s, places, ran[k]) {
      AtLaterPlace(s, next, places, ran[k]);
    }
    assert AtPlace(s, places, s.tasks[places[0]].id);
  }

  predicate Increasing(ids: seq<nat>) {
    forall j, k :: 0 <= j < k < |ids| ==> ids[j] < ids[k]
  }

  lemma {:induction false} RanIncreases(s: State, places: seq<nat>, effects: nat -> Effect)
    requires Ordered(s) && Places(places, 0, |s.tasks|)
    ensures Increasing(Ran(s, places, effects))
    decreases |places|
  {
    if places == [] {
    } else {
      var next := RunOne(s, places[0], effects);
      RunOneIsExact(s, places[0], effects);
      RanIncreases(next, places[1..], effects);
      RanAtPlaces(next, places[1..], effects);
      IncreasingAfter(s, next, places, Ran(next, places[1..], effects));
    }
  }

  lemma IncreasingAfter(s: State, next: State, places: seq<nat>, ran: seq<nat>)
    requires Ordered(s) && Places(places, 0, |s.tasks|) && places != [] && |next.tasks| >= |s.tasks|
    requires forall p :: 0 <= p < |s.tasks| ==> next.tasks[p].id == s.tasks[p].id
    requires AtPlaces(next, places[1..], ran) && Increasing(ran)
    ensures Increasing([s.tasks[places[0]].id] + ran)
  {
    forall k | 0 <= k < |ran| ensures s.tasks[places[0]].id < ran[k] {
      AtLaterPlace(s, next, places, ran[k]);
    }
  }

  // ----- one update -----

  lemma {:induction false} DueFromIsExact(tasks: seq<Task>, elapsed: int, k: nat)
    requires k <= |tasks|
    ensures forall p :: p in DueFrom(tasks, elapsed, k) <==> k <= p < |tasks| && Due(tasks[p], elapsed)
    decreases |tasks| - k
  {
    if k == |tasks| {
    } else {
      DueFromIsExact(tasks, elapsed, k + 1);
    }
  }

  lemma {:induction false} RemainingIsExact(tasks: seq<Task>)
    ensures forall t :: t in Remaining(tasks) <==> t in tasks && !t.cancelled
  {
    if tasks == [] {
    } else {
      RemainingIsExact(tasks[1..]);
      assert tasks == [tasks[0]] + tasks[1..];
    }
  }

  lemma {:induction false} RemainingInOrder(tasks: seq<Task>)
    requires forall i, j :: 0 <= i < j < |tasks| ==> tasks[i].id < tasks[j].id
    ensures forall i, j :: 0 <= i < j < |Remaining(tasks)| ==> Remaining(tasks)[i].id < Remaining(tasks)[j].id
  {
    if tasks == [] {
    } else {
      RemainingInOrder(tasks[1..]);
      RemainingIsExact(tasks[1..]);
      assert forall t :: t in tasks[1..] ==> tasks[0].id < t.id;
    }
  }

  lemma UpdatedKeepsOrder(s: State, elapsed: int, effects: nat -> Effect)
    requires Ordered(s)
    ensures Ordered(Updated(s, elapsed, effects)) && Updated(s, elapsed, effects).nextId >= s.nextId
  {
    RunAllKeepsOrder(Ticked(s, elapsed), DueFrom(s.tasks, elapsed, 0), effects);
    var ran := RunAll(Ticked(s, elapsed), DueFrom(s.tasks, elapsed, 0), effects);
    RemainingIsExact(ran.tasks);
    RemainingInOrder(ran.tasks);
  }

  lemma StepKeepsOrder(s: State, e: Event)
    requires Ordered(s)
    ensures Ordered(Step(s, e)) && Step(s, e).nextId >= s.nextId
  {
    match e
    case Call(op) => DoKeepsOrder(s, op);
    case Update(elapsed, effects) => UpdatedKeepsOrder(s, elapsed, effects);
  }

  /** The list has no live task with the id, and never will again. */
  ghost predicate Gone(s: State, id: nat) {
    id < s.nextId && forall t :: t in s.tasks && t.id == id ==> t.cancelled
  }

  ghost predicate Live(s: State, t: Task) {
    t in s.tasks && !t.cancelled
  }

  lemma OnlyOne(tasks: seq<Task>, p: nat, t: Task)
    requires p < |tasks| && t in tasks && t.id == tasks[p].id
    requires forall i, j :: 0 <= i < j < |tasks| ==> tasks[i].id < tasks[j].id
    ensures t == tasks[p]
  {
  }

  /** After an update the task at a place of the list is still there, or gone if it was cancelled. */
  lemma AfterErasing(ran: State, p: nat)
    requires Ordered(ran) && p < |ran.tasks|
    ensures var left := ran.(tasks := Remaining(ran.tasks));
            if ran.tasks[p].cancelled then Gone(left, ran.tasks[p].id) else Live(left, ran.tasks[p])
  {
    RemainingIsExact(ran.tasks);
    forall t | t in ran.tasks && t.id == ran.tasks[p].id ensures t == ran.tasks[p] {
      OnlyOne(ran.tasks, p, t);
    }
  }

  /** A live task that no callback cancels fires in an update exactly when its time has come, and
      goes on as it would alone. */
  lemma UpdateTracks(s: State, elapsed: int, effects: nat -> Effect, t: Task)
    requires Ordered(s) && Live(s, t) && Spared(Fired(s, elapsed, effects), effects, t.id)
    ensures t.id in Fired(s, elapsed, effects) <==> Due(t, elapsed)
    ensures var next := Tick(t, elapsed);
            var left := if Due(t, elapsed) then Settle(next, effects(t.id)) else next;
            if left.cancelled then Gone(Updated(s, elapsed, effects), t.id)
            else Live(Updated(s, elapsed, effects), left)
  {
    var p: nat :| p < |s.tasks| && s.tasks[p] == t;
    var places := DueFrom(s.tasks, elapsed, 0);
    DueFromIsExact(s.tasks, elapsed, 0);
    RunAllTracks(Ticked(s, elapsed), places, effects, p);
    RunAllKeepsOrder(Ticked(s, elapsed), places, effects);
    AfterErasing(RunAll(Ticked(s, elapsed), places, effects), p);
  }

  /** A live task that some callback of an update cancels is gone after it. */
  lemma UpdateCancels(s: State, elapsed: int, effects: nat -> Effect, t: Task)
    requires Ordered(s) && Live(s, t) && !Spared(Fired(s, elapsed, effects), effects, t.id)
    ensures Gone(Updated(s, elapsed, effects), t.id)
  {
    var p: nat :| p < |s.tasks| && s.tasks[p] == t;
    var places := DueFrom(s.tasks, elapsed, 0);
    RunAllCancels(Ticked(s, elapsed), places, effects, p);
    RunAllKeepsOrder(Ticked(s, elapsed), places, effects);
    AfterErasing(RunAll(Ticked(s, elapsed), places, effects), p);
  }

  /** A live task is still there after an update exactly when no callback cancels it and, if it
      fires, it is periodic and its callback does not return `false`. */
  lemma UpdateSurvivors(s: State, elapsed: int, effects: nat -> Effect, t: Task)
    requires Ordered(s) && Live(s, t)
    ensures Gone(Updated(s, elapsed, effects), t.id) <==>
      !Spared(Fired(s, elapsed, effects), effects, t.id) || (Due(t, elapsed) && (!t.periodic || effects(t.id).stop))
  {
    if Spared(Fired(s, elapsed, effects), effects, t.id) {
      UpdateTracks(s, elapsed, effects, t);
    } else {
      UpdateCancels(s, elapsed, effects, t);
    }
  }

  /** The tasks that an update runs, each once, in the order in which they were scheduled. */
  lemma UpdateRunsInOrder(s: State, elapsed: int, effects: nat -> Effect)
    requires Ordered(s)
    ensures Increasing(Fired(s, elapsed, effects))
    ensures forall id :: id in Fired(s, elapsed, effects) ==> IsDue(s.tasks, elapsed, id)
  {
    var places := DueFrom(s.tasks, elapsed, 0);
    RanIncreases(Ticked(s, elapsed), places, effects);
    RanAtPlaces(Ticked(s, elapsed), places, effects);
    forall id | AtPlace(Ticked(s, elapsed), places, id) ensures IsDue(s.tasks, elapsed, id) {
      AtDuePlace(s, elapsed, id);
    }
  }

  predicate IsDue(tasks: seq<Task>, elapsed: int, id: nat) {
    exists t :: t in tasks && t.id == id && Due(t, elapsed)
  }

  lemma AtDuePlace(s: State, elapsed: int, id: nat)
    requires AtPlace(Ticked(s, elapsed), DueFrom(s.tasks, elapsed, 0), id)
    ensures IsDue(s.tasks, elapsed, id)
  {
    var places := DueFrom(s.tasks, elapsed, 0);
    DueFromIsExact(s.tasks, elapsed, 0);
    var i :| 0 <= i < |places| && Ticked(s, elapsed).tasks[places[i]].id == id;
    assert places[i] in places;
    assert s.tasks[places[i]] in s.tasks;
  }

  /** No callback of a task with a smaller id, which runs earlier, cancelled the task. */
  predicate SparedBefore(ran: seq<nat>, effects: nat -> Effect, id: nat) {
    forall k :: 0 <= k < |ran| && ran[k] < id ==> !CancelsIn(effects(ran[k]).ops, id)
  }

  lemma SparedBeforeStep(first: nat, ran: seq<nat>, effects: nat -> Effect, id: nat)
    ensures SparedBefore([first] + ran, effects, id)
       <==> (first < id ==> !CancelsIn(effects(first).ops, id)) && SparedBefore(ran, effects, id)
  {
    var all := [first] + ran;
    assert all[0] == first && forall k :: 0 <= k < |ran| ==> all[k + 1] == ran[k];
  }

  lemma NoneBefore(first: nat, ran: seq<nat>, effects: nat -> Effect)
    requires Increasing([first] + ran)
    ensures SparedBefore([first] + ran, effects, first)
  {
    assert ([first] + ran)[0] == first;
  }

  /** A live task runs exactly when it is due and no callback that ran before its turn cancelled it. */
  lemma {:induction false} RunAllFires(s: State, places: seq<nat>, effects: nat -> Effect, p: nat)
    requires Ordered(s) && Places(places, 0, |s.tasks|) && p < |s.tasks| && !s.tasks[p].cancelled
    ensures s.tasks[p].id in Ran(s, places, effects)
       <==> p in places && SparedBefore(Ran(s, places, effects), effects, s.tasks[p].id)
    decreases |places|
  {
    if places == [] {
    } else {
      var q, id := places[0], s.tasks[p].id;
      var next := RunOne(s, q, effects);
      RunOneIsExact(s, q, effects);
      assert p in places <==> p == q || p in places[1..];
      if s.tasks[q].cancelled {
        assert Ran(s, places, effects) == Ran(s, places[1..], effects);
        RunAllFires(s, places[1..], effects, p);
      } else if p == q {
        RanIncreases(s, places, effects);
        NoneBefore(id, Ran(next, places[1..], effects), effects);
      } else {
        RunAllFiresLater(s, places, effects, p);
      }
    }
  }

  lemma {:induction false} RunAllFiresLater(s: State, places: seq<nat>, effects: nat -> Effect, p: nat)
    requires Ordered(s) && Places(places, 0, |s.tasks|) && p < |s.tasks| && !s.tasks[p].cancelled
    requires places != [] && places[0] != p && !s.tasks[places[0]].cancelled
    ensures s.tasks[p].id in Ran(s, places, effects)
       <==> p in places && SparedBefore(Ran(s, places, effects), effects, s.tasks[p].id)
    decreases |places|, 0
  {
    var q, id := places[0], s.tasks[p].id;
    var next, ran := RunOne(s, q, effects), Ran(RunOne(s, q, effects), places[1..], effects);
    RunOneIsExact(s, q, effects);
    assert Ran(s, places, effects) == [s.tasks[q].id] + ran;
    assert id != s.tasks[q].id && (p in places ==> s.tasks[q].id < id);
    assert p in places <==> p in places[1..];
    SparedBeforeStep(s.tasks[q].id, ran, effects, id);
    if CancelsIn(effects(s.tasks[q].id).ops, id) {
      RunAllSkips(next, places[1..], effects, p);
    } else {
      RunAllFires(next, places[1..], effects, p);
    }
  }

  /** A live task fires in an update exactly when its time has come and no callback that ran before
      its turn cancelled it. */
  lemma UpdateFires(s: State, elapsed: int, effects: nat -> Effect, t: Task)
    requires Ordered(s) && Live(s, t)
    ensures var fired := Fired(s, elapsed, effects);
      t.id in fired <==>
        Due(t, elapsed) && forall k :: 0 <= k < |fired| && fired[k] < t.id ==> !CancelsIn(effects(fired[k]).ops, t.id)
  {
    var p: nat :| p < |s.tasks| && s.tasks[p] == t;
    DueFromIsExact(s.tasks, elapsed, 0);
    RunAllFires(Ticked(s, elapsed), DueFrom(s.tasks, elapsed, 0), effects, p);
  }

  lemma DoKeepsGone(s: State, op: Op, id: nat)
    requires Ordered(s) && Gone(s, id)
    ensures Gone(Do(s, op), id)
  {
    DoKeepsOrder(s, op);
    forall p: nat | p < |Do(s, op).tasks| && Do(s, op).tasks[p].id == id ensures Do(s, op).tasks[p].cancelled {
      if p < |s.tasks| {
        DoIsExact(s, op, p);
      }
    }
  }

  lemma {:induction false} DoAllKeepsGone(s: State, ops: seq<Op>, id: nat)
    requires Ordered(s) && Gone(s, id)
    ensures Gone(DoAll(s, ops), id)
    decreases |ops|
  {
    if ops == [] {
    } else {
      DoKeepsOrder(s, ops[0]);
      DoKeepsGone(s, ops[0], id);
      DoAllKeepsGone(Do(s, ops[0]), ops[1..], id);
    }
  }

  lemma {:induction false} RunAllKeepsGone(s: State, places: seq<nat>, effects: nat -> Effect, id: nat)
    requires Ordered(s) && Places(places, 0, |s.tasks|) && Gone(s, id)
    ensures Gone(RunAll(s, places, effects), id)
    decreases |places|
  {
    if places == [] {
    } else {
      RunOneIsExact(s, places[0], effects);
      if !s.tasks[places[0]].cancelled {
        DoAllKeepsGone(s, effects(s.tasks[places[0]].id).ops, id);
      }
      RunAllKeepsGone(RunOne(s, places[0], effects), places[1..], effects, id);
    }
  }

  lemma UpdateKeepsGone(s: State, elapsed: int, effects: nat -> Effect, id: nat)
    requires Ordered(s) && Gone(s, id)
    ensures Gone(Updated(s, elapsed, effects), id) && id !in Fired(s, elapsed, effects)
  {
    UpdateRunsInOrder(s, elapsed, effects);
    RunAllKeepsGone(Ticked(s, elapsed), DueFrom(s.tasks, elapsed, 0), effects, id);
    RemainingIsExact(RunAll(Ticked(s, elapsed), DueFrom(s.tasks, elapsed, 0), effects).tasks);
  }

  lemma StepKeepsGone(s: State, e: Event, id: nat)
    requires Ordered(s) && Gone(s, id)
    ensures Gone(Step(s, e), id) && id !in FiredBy(s, e)
  {
    match e
    case Call(op) => DoKeepsGone(s, op, id);
    case Update(elapsed, effects) => UpdateKeepsGone(s, elapsed, effects, id);
  }

  // ----- runs -----

  lemma {:induction false} AfterKeepsOrder(s: State, events: seq<Event>)
    requires Ordered(s)
    ensures Ordered(After(s, events))
    decreases |events|
  {
    if events == [] {
    } else {
      StepKeepsOrder(s, events[0]);
      AfterKeepsOrder(Step(s, events[0]), events[1..]);
    }
  }

  /** Once cancelled or over, a task never fires, whatever happens afterwards. */
  lemma {:induction false} NeverAgain(s: State, events: seq<Event>, id: nat)
    requires Ordered(s) && Gone(s, id)
    ensures Gone(After(s, events), id) && forall k :: 0 <= k < |events| ==> !Firings(s, events, id)[k]
    decreases |events|
  {
    if events == [] {
    } else {
      StepKeepsOrder(s, events[0]);
      StepKeepsGone(s, events[0], id);
      NeverAgain(Step(s, events[0]), events[1..], id);
    }
  }

  /** A call to cancel that finds its task is final; it finds every task that is still in the list. */
  lemma CancelIsFinal(s: State, t: Task, op: Op, events: seq<Event>)
    requires Ordered(s) && t in s.tasks && Cancels(op, t.id)
    ensures forall k :: 0 <= k < |events| ==> !Firings(Do(s, op), events, t.id)[k]
  {
    var p: nat :| p < |s.tasks| && s.tasks[p] == t;
    DoKeepsOrder(s, op);
    DoIsExact(s, op, p);
    forall u | u in Do(s, op).tasks && u.id == t.id ensures u.cancelled {
      OnlyOne(Do(s, op).tasks, p, u);
    }
    NeverAgain(Do(s, op), events, t.id);
  }

  /** An event that does not cancel the task: neither the call, nor a callback that runs, nor the
      `false` that its own callback may return. */
  predicate Spares(s: State, e: Event, id: nat) {
    match e
    case Call(op) => !Cancels(op, id)
    case Update(elapsed, effects) =>
      Spared(Fired(s, elapsed, effects), effects, id) && (id in Fired(s, elapsed, effects) ==> !effects(id).stop)
  }

  predicate SparesAll(s: State, events: seq<Event>, id: nat)
    decreases |events|
  {
    events == [] || (Spares(s, events[0], id) && SparesAll(Step(s, events[0]), events[1..], id))
  }

  // ----- a task by itself -----

  /** What one event makes of a task that nothing cancels. */
  function AloneAfter(t: Option<Task>, e: Event): Option<Task> {
    if t.None? || e.Call? then t
    else if Due(t.value, e.elapsed) && !t.value.periodic then None
    else Some(Tick(t.value, e.elapsed))
  }

  predicate AloneFires(t: Option<Task>, e: Event) {
    t.Some? && e.Update? && Due(t.value, e.elapsed)
  }

  /** When a task fires by itself: only its own remaining time and interval, and the times that
      elapse, matter. */
  function Alone(t: Option<Task>, events: seq<Event>): (flags: seq<bool>)
    ensures |flags| == |events|
    decreases |events|
  {
    if events == [] then [] else [AloneFires(t, events[0])] + Alone(AloneAfter(t, events[0]), events[1..])
  }

  ghost predicate Holds(s: State, t: Option<Task>, id: nat) {
    match t
    case None => Gone(s, id)
    case Some(task) => Live(s, task) && task.id == id
  }

  lemma StepIsAlone(s: State, e: Event, t: Option<Task>, id: nat)
    requires Ordered(s) && Holds(s, t, id) && (t.Some? ==> Spares(s, e, id))
    ensures Holds(Step(s, e), AloneAfter(t, e), id)
    ensures id in FiredBy(s, e) <==> AloneFires(t, e)
  {
    match t
    case None => StepKeepsGone(s, e, id);
    case Some(task) =>
      match e {
        case Call(op) =>
          var p: nat :| p < |s.tasks| && s.tasks[p] == task;
          DoIsExact(s, op, p);
        case Update(elapsed, effects) =>
          UpdateTracks(s, elapsed, effects, task);
      }
  }

  lemma {:induction false} NothingAlone(events: seq<Event>)
    ensures forall k :: 0 <= k < |events| ==> !Alone(None, events)[k]
  {
    if events == [] {
    } else {
      NothingAlone(events[1..]);
    }
  }

  /** Over any run, a task that nothing cancels fires exactly when it would by itself: other tasks,
      their callbacks and what they schedule make no difference. */
  lemma {:induction false} FiresAsAlone(s: State, events: seq<Event>, t: Option<Task>, id: nat)
    requires Ordered(s) && Holds(s, t, id) && SparesAll(s, events, id)
    ensures Firings(s, events, id) == Alone(t, events)
    decreases |events|
  {
    if events == [] {
    } else {
      StepKeepsOrder(s, events[0]);
      StepIsAlone(s, events[0], t, id);
      FiresAsAlone(Step(s, events[0]), events[1..], AloneAfter(t, events[0]), id);
    }
  }

  // ----- exact times -----

  function Elapsed(e: Event): int {
    if e.Update? then e.elapsed else 0
  }

  /** The time that has passed when the first `n` events are over. */
  function Clock(events: seq<Event>, n: nat): int
    requires n <= |events|
    decreases n
  {
    if n == 0 then 0 else Elapsed(events[0]) + Clock(events[1..], n - 1)
  }

  /** A one-shot that nothing cancels fires in the first update by which its delay has passed, and in
      no other. */
  lemma {:induction false} OneShotAlone(t: Task, events: seq<Event>, k: nat)
    requires !t.cancelled && !t.periodic && k < |events|
    ensures Alone(Some(t), events)[k]
       <==> events[k].Update? && Clock(events, k + 1) >= t.remaining
            && forall j :: 0 <= j < k && events[j].Update? ==> Clock(events, j + 1) < t.remaining
    decreases |events|
  {
    var e := events[0];
    if k == 0 {
      assert Clock(events, 1) == Elapsed(e);
    } else if AloneFires(Some(t), e) {
      NothingAlone(events[1..]);
      assert Clock(events, 1) == Elapsed(e);
    } else {
      var next := AloneAfter(Some(t), e).value;
      OneShotAlone(next, events[1..], k - 1);
      assert next.remaining == t.remaining - Elapsed(e);
      assert forall j :: 0 <= j < k ==> events[1..][j] == events[j + 1];
      assert forall j :: 0 <= j < |events| ==> Clock(events, j + 1) == Elapsed(e) + Clock(events[1..], j);
      assert e.Update? ==> Clock(events, 1) < t.remaining;
      if forall j :: 0 <= j < k - 1 && events[1..][j].Update? ==> Clock(events[1..], j + 1) < next.remaining {
        forall j | 0 <= j < k && events[j].Update? ensures Clock(events, j + 1) < t.remaining {
          if j > 0 {
            assert events[1..][j - 1].Update?;
          }
        }
      } else {
        var j :| 0 <= j < k - 1 && events[1..][j].Update? && Clock(events[1..], j + 1) >= next.remaining;
        assert events[j + 1].Update? && Clock(events, j + 2) >= t.remaining;
      }
    }
  }

  /** The cumulative times at which the flags are set. */
  function Times(flags: seq<bool>, events: seq<Event>, now: int): seq<int>
    requires |flags| == |events|
    decreases |events|
  {
    if events == [] then []
    else
      var later := now + Elapsed(events[0]);
      (if flags[0] then [later] else []) + Times(flags[1..], events[1..], later)
  }

  ghost predicate ShortTicks(events: seq<Event>, longest: int) {
    forall k :: 0 <= k < |events| && events[k].Update? ==> 0 <= events[k].elapsed <= longest
  }

  /** The n-th firing after `first` time is not before its due time, and late by less than one tick
      for each firing so far. */
  predicate OnTime(times: seq<int>, n: nat, first: int, interval: int, longest: int)
    requires n < |times|
  {
    first + n * interval <= times[n] < first + n * interval + (n + 1) * longest
  }

  lemma {:induction false} PeriodicAlone(t: Task, events: seq<Event>, now: int, longest: int, n: nat)
    requires !t.cancelled && t.periodic && t.interval > 0 && t.remaining > 0
    requires ShortTicks(events, longest)
    requires n < |Times(Alone(Some(t), events), events, now)|
    ensures OnTime(Times(Alone(Some(t), events), events, now), n, now + t.remaining, t.interval, longest)
    decreases |events|
  {
    var e, later := events[0], now + Elapsed(events[0]);
    var next := AloneAfter(Some(t), e).value;
    var rest := Times(Alone(Some(next), events[1..]), events[1..], later);
    assert Alone(Some(t), events)[1..] == Alone(Some(next), events[1..]);
    if AloneFires(Some(t), e) {
      assert Times(Alone(Some(t), events), events, now) == [later] + rest;
      if n > 0 {
        PeriodicAlone(next, events[1..], later, longest, n - 1);
        Distribute(n, t.interval, longest);
      }
    } else {
      assert Times(Alone(Some(t), events), events, now) == rest;
      PeriodicAlone(next, events[1..], later, longest, n);
    }
  }

  /** Given enough time there is another firing. */
  lemma {:induction false} PeriodicAloneGoesOn(t: Task, events: seq<Event>, now: int, longest: int, n: nat)
    requires !t.cancelled && t.periodic && t.interval > 0 && t.remaining > 0 && longest >= 0
    requires ShortTicks(events, longest)
    requires Clock(events, |events|) >= t.remaining + n * t.interval + (n + 1) * longest
    ensures n < |Times(Alone(Some(t), events), events, now)|
    decreases |events|
  {
    if events == [] {
      assert false;
    } else {
      var e, later := events[0], now + Elapsed(events[0]);
      var next := AloneAfter(Some(t), e).value;
      assert Alone(Some(t), events)[1..] == Alone(Some(next), events[1..]);
      if !AloneFires(Some(t), e) {
        PeriodicAloneGoesOn(next, events[1..], later, longest, n);
      } else if n > 0 {
        Distribute(n, t.interval, longest);
        PeriodicAloneGoesOn(next, events[1..], later, longest, n - 1);
      }
    }
  }

  lemma Distribute(n: nat, interval: int, longest: int)
    requires n > 0
    ensures n * interval == interval + (n - 1) * interval && (n + 1) * longest == longest + n * longest
  {
  }

  // ----- the two kinds of task -----

  /** A scheduled one-shot that nothing cancels fires exactly once: in the first update by which its
      delay has passed. */
  lemma OneShotFires(s: State, delay: int, events: seq<Event>, k: nat)
    requires Ordered(s) && k < |events| && SparesAll(Do(s, Schedule(delay)), events, s.nextId)
    ensures Firings(Do(s, Schedule(delay)), events, s.nextId)[k]
       <==> events[k].Update? && Clock(events, k + 1) >= delay * 1000
            && forall j :: 0 <= j < k && events[j].Update? ==> Clock(events, j + 1) < delay * 1000
  {
    DoKeepsOrder(s, Schedule(delay));
    var t := OneShot(s, delay);
    assert Do(s, Schedule(delay)).tasks[|s.tasks|] == t;
    FiresAsAlone(Do(s, Schedule(delay)), events, Some(t), s.nextId);
    OneShotAlone(t, events, k);
  }

  /** A periodic task that nothing cancels, with a positive interval and ticks of at most `longest`:
      its n-th firing (from 0) is due after the first delay and n intervals, and comes no earlier and
      less than n + 1 ticks later. */
  lemma PeriodicFires(s: State, interval: int, initialDelay: int, events: seq<Event>, longest: int, n: nat)
    requires Ordered(s) && interval > 0 && ShortTicks(events, longest)
    requires SparesAll(Do(s, SchedulePeriodic(interval, initialDelay)), events, s.nextId)
    requires n < |Times(Firings(Do(s, SchedulePeriodic(interval, initialDelay)), events, s.nextId), events, 0)|
    ensures var first := (if initialDelay > 0 then initialDelay else interval) * 1000;
            OnTime(Times(Firings(Do(s, SchedulePeriodic(interval, initialDelay)), events, s.nextId), events, 0),
                   n, first, interval * 1000, longest)
  {
    var op := SchedulePeriodic(interval, initialDelay);
    DoKeepsOrder(s, op);
    var t := Repeating(s, interval, initialDelay);
    assert Do(s, op).tasks[|s.tasks|] == t;
    LivePeriodicFires(Do(s, op), t, events, longest, n);
  }

  lemma LivePeriodicFires(s: State, t: Task, events: seq<Event>, longest: int, n: nat)
    requires Ordered(s) && Live(s, t) && t.periodic && t.interval > 0 && t.remaining > 0
    requires ShortTicks(events, longest) && SparesAll(s, events, t.id)
    requires n < |Times(Firings(s, events, t.id), events, 0)|
    ensures OnTime(Times(Firings(s, events, t.id), events, 0), n, t.remaining, t.interval, longest)
  {
    FiresAsAlone(s, events, Some(t), t.id);
    PeriodicAlone(t, events, 0, longest, n);
  }

  /** The same task does fire for the n-th time once enough time has passed. */
  lemma PeriodicGoesOn(s: State, interval: int, initialDelay: int, events: seq<Event>, longest: nat, n: nat)
    requires Ordered(s) && interval > 0 && ShortTicks(events, longest)
    requires SparesAll(Do(s, SchedulePeriodic(interval, initialDelay)), events, s.nextId)
    requires var first := (if initialDelay > 0 then initialDelay else interval) * 1000;
             Clock(events, |events|) >= first + n * (interval * 1000) + (n + 1) * longest
    ensures n < |Times(Firings(Do(s, SchedulePeriodic(interval, initialDelay)), events, s.nextId), events, 0)|
  {
    var op := SchedulePeriodic(interval, initialDelay);
    DoKeepsOrder(s, op);
    var t := Repeating(s, interval, initialDelay);
    assert Do(s, op).tasks[|s.tasks|] == t;
    LivePeriodicGoesOn(Do(s, op), t, events, longest, n);
  }

  lemma LivePeriodicGoesOn(s: State, t: Task, events: seq<Event>, longest: nat, n: nat)
    requires Ordered(s) && Live(s, t) && t.periodic && t.interval > 0 && t.remaining > 0
    requires ShortTicks(events, longest) && SparesAll(s, events, t.id)
    requires Clock(events, |events|) >= t.remaining + n * t.interval + (n + 1) * longest
    ensures n < |Times(Firings(s, events, t.id), events, 0)|
  {
    FiresAsAlone(s, events, Some(t), t.id);
    PeriodicAloneGoesOn(t, events, 0, longest, n);
  }
}
