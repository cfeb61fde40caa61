/** The data that `core::Scheduler` guards with its mutex, and what each critical section does to it. */
module SchedulerShared {
  import opened Wrappers

  type TaskId = nat
  type Time = int
  type Priority = p: int | -128 <= p <= 127

  const INVALID_TASK_ID: TaskId := 0

  /** A callback and a `should_continue` flag are known by their identity only. */
  datatype Task = Task(
    id: TaskId,
    tag: string,
    priority: Priority,
    executeAt: Time,
    interval: int,
    callback: nat,
    shouldContinue: Option<nat>)

  /** `Task::operator>`. */
  predicate After(a: Task, b: Task) {
    if a.executeAt != b.executeAt then a.executeAt > b.executeAt else a.priority > b.priority
  }

  datatype Shared = Shared(
    queue: multiset<Task>,
    ready: seq<Task>,
    pending: set<TaskId>,
    running: set<TaskId>,
    cancelled: set<TaskId>,
    byTag: map<string, set<TaskId>>,
    active: int,
    nextId: TaskId,
    isRunning: bool,
    paused: bool)

  const INITIAL: Shared := Shared(multiset{}, [], {}, {}, {}, map[], 0, 1, true, false)

  /** What `top` of the priority queue may return: no queued task comes strictly before it. */
  ghost predicate IsTop(queue: multiset<Task>, t: Task) {
    t in queue && forall u :: u in queue ==> !After(t, u)
  }

  function TagInsert(byTag: map<string, set<TaskId>>, tag: string, id: TaskId): map<string, set<TaskId>> {
    if tag == "" then byTag
    else byTag[tag := (if tag in byTag then byTag[tag] else {}) + {id}]
  }

  function TagErase(byTag: map<string, set<TaskId>>, tag: string, id: TaskId): map<string, set<TaskId>> {
    if tag == "" || tag !in byTag then byTag
    else if byTag[tag] - {id} == {} then byTag - {tag}
    else byTag[tag := byTag[tag] - {id}]
  }

  function Insert(sh: Shared, t: Task): Shared {
    sh.(pending := sh.pending + {t.id}, byTag := TagInsert(sh.byTag, t.tag, t.id), queue := sh.queue + multiset{t})
  }

  /** The locked part of `schedule` and `schedule_periodic`. */
  function Schedule(sh: Shared, t: Task): Shared {
    if sh.isRunning then Insert(sh, t) else sh
  }

  predicate Cancellable(sh: Shared, id: TaskId) {
    id != INVALID_TASK_ID && id in sh.pending
  }

  function Cancel(sh: Shared, id: TaskId): Shared {
    if Cancellable(sh, id) then sh.(cancelled := sh.cancelled + {id}) else sh
  }

  /** The pending ids under a tag, whether or not they are already cancelled. */
  function TaggedPending(sh: Shared, tag: string): set<TaskId> {
    if tag == "" || tag !in sh.byTag then {} else sh.byTag[tag] * sh.pending
  }

  function CancelByTag(sh: Shared, tag: string): Shared {
    sh.(cancelled := sh.cancelled + TaggedPending(sh, tag))
  }

  function CancelAll(sh: Shared): Shared {
    sh.(cancelled := sh.cancelled + sh.pending)
  }

  predicate IsPending(sh: Shared, id: TaskId) {
    id in sh.pending && id !in sh.cancelled
  }

  function PendingIds(sh: Shared): set<TaskId> {
    sh.pending - sh.cancelled
  }

  function PendingIdsByTag(sh: Shared, tag: string): set<TaskId> {
    TaggedPending(sh, tag) - sh.cancelled
  }

  /** The timer moves the top task on: to the ready queue, or away when it has been cancelled. */
  function Pop(sh: Shared, t: Task): Shared {
    var rest := sh.(queue := sh.queue - multiset{t});
    if t.id in sh.cancelled then
      rest.(pending := sh.pending - {t.id}, cancelled := sh.cancelled - {t.id},
            byTag := TagErase(sh.byTag, t.tag, t.id))
    else
      rest.(ready := sh.ready + [t])
  }

  /** A worker takes the front of the ready queue; `cancelled` is not consulted. */
  function Take(sh: Shared): Shared
    requires sh.ready != []
  {
    var t := sh.ready[0];
    sh.(ready := sh.ready[1..], pending := sh.pending - {t.id}, running := sh.running + {t.id}, active := sh.active + 1)
  }

  /** `goOn` is the current value of the task's `should_continue` flag. */
  predicate Reschedules(sh: Shared, t: Task, goOn: bool) {
    t.interval > 0 && t.id !in sh.cancelled && (t.shouldContinue.None? || goOn)
  }

  function NextOccurrence(sh: Shared, t: Task, now: Time): Task {
    t.(id := sh.nextId, executeAt := now + t.interval)
  }

  /** The books of a task whose callback has returned. */
  function Complete(sh: Shared, t: Task): Shared {
    sh.(running := sh.running - {t.id}, active := sh.active - 1, byTag := TagErase(sh.byTag, t.tag, t.id))
  }

  function Renew(sh: Shared, t: Task, now: Time): Shared {
    Insert(sh, NextOccurrence(sh, t, now)).(nextId := sh.nextId + 1)
  }

  function Finish(sh: Shared, t: Task, now: Time, goOn: bool): Shared {
    var done := Complete(sh, t);
    var next := if Reschedules(sh, t, goOn) then Renew(done, t, now) else done;
    next.(cancelled := sh.cancelled - {t.id})
  }
}
