/** `scripting::ScriptScheduler` as a state and the steps on it: a tick scheduler whose callbacks may
    schedule and cancel while they run. */
module ScriptTasks {

  /** Times are in microseconds. */
  datatype Task = Task(id: nat, remaining: int, interval: int, periodic: bool, cancelled: bool)

  datatype State = State(tasks: seq<Task>, nextId: nat)

  const INITIAL := State([], 1)

  // ----- what scripts may call -----

  /** Delays are given in milliseconds. */
  datatype Op = Schedule(delay: int) | SchedulePeriodic(interval: int, initialDelay: int) | Cancel(id: nat) | CancelAll

  function OneShot(s: State, delay: int): Task {
    Task(s.nextId, delay * 1000, 0, false, false)
  }

  function Repeating(s: State, interval: int, initialDelay: int): Task {
    Task(s.nextId, (if initialDelay > 0 then initialDelay else interval) * 1000, interval * 1000, true, false)
  }

  function Push(s: State, t: Task): State {
    State(s.tasks + [t], s.nextId + 1)
  }

  /** The first task with the id is marked; it stays in the list until the next update. */
  function CancelFirst(tasks: seq<Task>, id: nat): (r: seq<Task>)
    ensures |r| == |tasks|
  {
    if tasks == [] then []
    else if tasks[0].id == id then [tasks[0].(cancelled := true)] + tasks[1..]
    else [tasks[0]] + CancelFirst(tasks[1..], id)
  }

  function CancelEach(tasks: seq<Task>): (r: seq<Task>)
    ensures |r| == |tasks|
  {
    seq(|tasks|, k requires 0 <= k < |tasks| => tasks[k].(cancelled := true))
  }

  function Do(s: State, op: Op): (r: State)
    ensures |r.tasks| >= |s.tasks|
  {
    match op
    case Schedule(delay) => Push(s, OneShot(s, delay))
    case SchedulePeriodic(interval, initialDelay) => Push(s, Repeating(s, interval, initialDelay))
    case Cancel(id) => s.(tasks := CancelFirst(s.tasks, id))
    case CancelAll => s.(tasks := CancelEach(s.tasks))
  }

  function DoAll(s: State, ops: seq<Op>): (r: State)
    ensures |r.tasks| >= |s.tasks|
    decreases |ops|
  {
    if ops == [] then s else DoAll(Do(s, ops[0]), ops[1..])
  }

  // ----- one update -----

  /** What a callback does when it runs: the calls it makes, and whether it returns `false`. */
  datatype Effect = Effect(ops: seq<Op>, stop: bool)

  predicate Due(t: Task, elapsed: int) {
    !t.cancelled && t.remaining - elapsed <= 0
  }

  function Tick(t: Task, elapsed: int): Task {
    if t.cancelled then t
    else t.(remaining := if Due(t, elapsed) && t.periodic then t.interval else t.remaining - elapsed)
  }

  function TickAll(tasks: seq<Task>, elapsed: int): (r: seq<Task>)
    ensures |r| == |tasks|
  {
    seq(|tasks|, k requires 0 <= k < |tasks| => Tick(tasks[k], elapsed))
  }

  predicate Places(places: seq<nat>, low: nat, high: nat) {
    && (forall i :: 0 <= i < |places| ==> low <= places[i] < high)
    && (forall i, j :: 0 <= i < j < |places| ==> places[i] < places[j])
  }

  /** The places, from `k` on, of the tasks whose time has come, in order. */
  function DueFrom(tasks: seq<Task>, elapsed: int, k: nat): (places: seq<nat>)
    requires k <= |tasks|
    ensures Places(places, k, |tasks|)
    decreases |tasks| - k
  {
    if k == |tasks| then []
    else
      var rest := DueFrom(tasks, elapsed, k + 1);
      if Due(tasks[k], elapsed) then [k] + rest else rest
  }

  /** The task at a place after its callback: a one-shot is over, and so is a stopped periodic one. */
  function Settle(t: Task, effect: Effect): Task {
    t.(cancelled := t.cancelled || effect.stop || !t.periodic)
  }

  /** One turn of the second loop: a task that was cancelled meanwhile does not run. */
  function RunOne(s: State, place: nat, effects: nat -> Effect): (r: State)
    requires place < |s.tasks|
    ensures |r.tasks| >= |s.tasks|
  {
    if s.tasks[place].cancelled then s
    else
      var effect := effects(s.tasks[place].id);
      var after := DoAll(s, effect.ops);
      after.(tasks := after.tasks[place := Settle(after.tasks[place], effect)])
  }

  function RunAll(s: State, places: seq<nat>, effects: nat -> Effect): (r: State)
    requires Places(places, 0, |s.tasks|)
    ensures |r.tasks| >= |s.tasks|
    decreases |places|
  {
    if places == [] then s else RunAll(RunOne(s, places[0], effects), places[1..], effects)
  }

  /** The ids of the tasks that do run, in order. */
  function Ran(s: State, places: seq<nat>, effects: nat -> Effect): seq<nat>
    requires Places(places, 0, |s.tasks|)
    decreases |places|
  {
    if places == [] then []
    else (if s.tasks[places[0]].cancelled then [] else [s.tasks[places[0]].id])
         + Ran(RunOne(s, places[0], effects), places[1..], effects)
  }

  function Remaining(tasks: seq<Task>): seq<Task> {
    if tasks == [] then []
    else (if tasks[0].cancelled then [] else [tasks[0]]) + Remaining(tasks[1..])
  }

  function Ticked(s: State, elapsed: int): State {
    s.(tasks := TickAll(s.tasks, elapsed))
  }

  function Updated(s: State, elapsed: int, effects: nat -> Effect): State {
    var ran := RunAll(Ticked(s, elapsed), DueFrom(s.tasks, elapsed, 0), effects);
    ran.(tasks := Remaining(ran.tasks))
  }

  function Fired(s: State, elapsed: int, effects: nat -> Effect): seq<nat> {
    Ran(Ticked(s, elapsed), DueFrom(s.tasks, elapsed, 0), effects)
  }

  // ----- runs -----

  datatype Event = Call(op: Op) | Update(elapsed: int, effects: nat -> Effect)

  function Step(s: State, e: Event): State {
    match e
    case Call(op) => Do(s, op)
    case Update(elapsed, effects) => Updated(s, elapsed, effects)
  }

  function FiredBy(s: State, e: Event): seq<nat> {
    match e
    case Call(_) => []
    case Update(elapsed, effects) => Fired(s, elapsed, effects)
  }

  function After(s: State, events: seq<Event>): State
    decreases |events|
  {
    if events == [] then s else After(Step(s, events[0]), events[1..])
  }

  /** At which events of a run the task fires. */
  function Firings(s: State, events: seq<Event>, id: nat): (flags: seq<bool>)
    ensures |flags| == |events|
    decreases |events|
  {
    if events == [] then [] else [id in FiredBy(s, events[0])] + Firings(Step(s, events[0]), events[1..], id)
  }

  /** Ids grow along the list and are below the next one. */
  ghost predicate Ordered(s: State) {
    && (forall i :: 0 <= i < |s.tasks| ==> s.tasks[i].id < s.nextId)
    && (forall i, j :: 0 <= i < j < |s.tasks| ==> s.tasks[i].id < s.tasks[j].id)
  }

  // ----- every step keeps the ids in order -----

  lemma {:induction false} CancelFirstIsExact(tasks: seq<Task>, id: nat, p: nat)
    requires p < |tasks| && forall i, j :: 0 <= i < j < |tasks| ==> tasks[i].id < tasks[j].id
    ensures CancelFirst(tasks, id)[p] == if tasks[p].id == id then tasks[p].(cancelled := true) else tasks[p]
    decreases |tasks|
  {
    if tasks[0].id == id {
    } else if p > 0 {
      CancelFirstIsExact(tasks[1..], id, p - 1);
    }
  }

  predicate Cancels(op: Op, id: nat) {
    op == CancelAll || op == Cancel(id)
  }

  /** What one call does to a task in the list. */
  lemma DoIsExact(s: State, op: Op, p: nat)
    requires Ordered(s) && p < |s.tasks|
    ensures p < |Do(s, op).tasks|
    ensures Do(s, op).tasks[p] == if Cancels(op, s.tasks[p].id) then s.tasks[p].(cancelled := true) else s.tasks[p]
  {
    match op
    case Schedule(_) =>
    case SchedulePeriodic(_, _) =>
    case Cancel(id) => CancelFirstIsExact(s.tasks, id, p);
    case CancelAll =>
  }

  lemma DoKeepsOrder(s: State, op: Op)
    requires Ordered(s)
    ensures Ordered(Do(s, op)) && |Do(s, op).tasks| >= |s.tasks| && Do(s, op).nextId >= s.nextId
  {
    forall p | 0 <= p < |s.tasks| ensures Do(s, op).tasks[p].id == s.tasks[p].id {
      DoIsExact(s, op, p);
    }
  }

  predicate CancelsIn(ops: seq<Op>, id: nat) {
    exists k :: 0 <= k < |ops| && Cancels(ops[k], id)
  }

  lemma {:induction false} DoAllIsExact(s: State, ops: seq<Op>)
    requires Ordered(s)
    ensures Ordered(DoAll(s, ops)) && |DoAll(s, ops).tasks| >= |s.tasks| && DoAll(s, ops).nextId >= s.nextId
    ensures forall p :: 0 <= p < |s.tasks| ==>
      DoAll(s, ops).tasks[p] == if CancelsIn(ops, s.tasks[p].id) then s.tasks[p].(cancelled := true) else s.tasks[p]
    decreases |ops|
  {
    if ops == [] {
    } else {
      DoKeepsOrder(s, ops[0]);
      DoAllIsExact(Do(s, ops[0]), ops[1..]);
      forall p | 0 <= p < |s.tasks|
        ensures DoAll(s, ops).tasks[p]
             == if CancelsIn(ops, s.tasks[p].id) then s.tasks[p].(cancelled := true) else s.tasks[p]
      {
        DoIsExact(s, ops[0], p);
        CancelsInFirst(ops, s.tasks[p].id);
      }
    }
  }

  lemma CancelsInFirst(ops: seq<Op>, id: nat)
    requires ops != []
    ensures CancelsIn(ops, id) <==> Cancels(ops[0], id) || CancelsIn(ops[1..], id)
  {
    if CancelsIn(ops[1..], id) {
      var k :| 0 <= k < |ops[1..]| && Cancels(ops[1..][k], id);
      assert Cancels(ops[k + 1], id);
    } else {
      assert forall k :: 1 <= k < |ops| ==> ops[k] == ops[1..][k - 1];
    }
  }
}
