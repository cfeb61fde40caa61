/** `core::Scheduler` as a state machine: one timer thread, any number of workers and callers,
    every critical section one atomic step. */
module SchedulerSystem {
  import opened SchedulerShared

  datatype TimerPc =
    | TimerHead          // about to test running_ in the loop condition
    | TimerEntering      // the loop condition held; about to lock
    | TimerWaitTask      // waiting for a task or for stop
    | TimerWaitResume    // waiting while paused
    | TimerWaitDue       // waiting for the top task to become due
    | TimerExited

  datatype WorkerPc =
    | WorkerHead
    | WorkerWaiting      // waiting for a ready task or for stop
    | WorkerBusy(task: Task)
    | WorkerExited

  /** Where a task is, for every id ever drawn. */
  datatype Place =
    | Flying(caller: nat)   // drawn by a caller that has not locked the mutex yet
    | Queued
    | Ready
    | Held(worker: nat)
    | Finished
    | Dropped
    | Rejected

  /** History that no step consults: the task behind each id, its place, and the first id of its
      periodic chain. */
  datatype History = History(tasks: map<TaskId, Task>, place: map<TaskId, Place>, origin: map<TaskId, TaskId>)

  datatype System = System(
    sh: Shared,
    now: Time,
    timer: TimerPc,
    workers: seq<WorkerPc>,
    callers: map<nat, Task>,
    hist: History)

  datatype Label =
    | Tick(elapsed: nat)
    | Draw(caller: nat, request: Task, delay: int)
    | Lock(caller: nat)
    | CallCancel(id: TaskId)
    | CallCancelByTag(tag: string)
    | CallCancelAll
    | CallPause
    | CallResume
    | CallStop
    | TimerLoop
    | TimerLock(top: Task)
    | TimerTaskSeen(top: Task)
    | TimerResumed
    | TimerWoken
    | WorkerLoop(worker: nat)
    | WorkerTake(worker: nat)
    | WorkerFinish(worker: nat, goOn: bool)

  /** `num_threads == 0` is raised to 1. */
  function Initial(threads: nat): System {
    System(INITIAL, 0, TimerHead, seq(if threads == 0 then 1 else threads, _ => WorkerHead), map[],
           History(map[], map[], map[]))
  }

  ghost predicate Enabled(s: System, l: Label) {
    match l
    case Tick(_) => true
    case Draw(c, _, _) => c !in s.callers
    case Lock(c) => c in s.callers
    case CallCancel(_) => true
    case CallCancelByTag(_) => true
    case CallCancelAll => true
    case CallPause => true
    case CallResume => true
    case CallStop => true
    case TimerLoop => s.timer == TimerHead
    case TimerLock(top) =>
      s.timer == TimerEntering && (s.sh.queue != multiset{} ==> IsTop(s.sh.queue, top))
    case TimerTaskSeen(top) =>
      && s.timer == TimerWaitTask
      && (!s.sh.isRunning || s.sh.queue != multiset{})
      && (s.sh.queue != multiset{} ==> IsTop(s.sh.queue, top))
    case TimerResumed => s.timer == TimerWaitResume && (!s.sh.isRunning || !s.sh.paused)
    case TimerWoken => s.timer == TimerWaitDue
    case WorkerLoop(w) => w < |s.workers| && s.workers[w] == WorkerHead
    case WorkerTake(w) =>
      w < |s.workers| && s.workers[w] == WorkerWaiting && (!s.sh.isRunning || s.sh.ready != [])
    case WorkerFinish(w, _) => w < |s.workers| && s.workers[w].WorkerBusy?
  }

  function Record(h: History, t: Task, place: Place, origin: TaskId): History {
    History(h.tasks[t.id := t], h.place[t.id := place], h.origin[t.id := origin])
  }

  function Move(h: History, id: TaskId, place: Place): History {
    h.(place := h.place[id := place])
  }

  /** Drawing an id and reading the clock happen before the lock is taken. */
  function DrawTask(s: System, request: Task, delay: int): Task {
    request.(id := s.sh.nextId, executeAt := s.now + delay)
  }

  function DoDraw(s: System, c: nat, request: Task, delay: int): System {
    var t := DrawTask(s, request, delay);
    s.(sh := s.sh.(nextId := s.sh.nextId + 1), callers := s.callers[c := t], hist := Record(s.hist, t, Flying(c), t.id))
  }

  function DoLock(s: System, c: nat): System
    requires c in s.callers
  {
    var t := s.callers[c];
    s.(sh := Schedule(s.sh, t), callers := s.callers - {c},
       hist := Move(s.hist, t.id, if s.sh.isRunning then Queued else Rejected))
  }

  function DoPop(s: System, top: Task): System {
    s.(sh := Pop(s.sh, top), timer := TimerHead,
       hist := Move(s.hist, top.id, if top.id in s.sh.cancelled then Dropped else Ready))
  }

  /** The timer pops: it holds the lock, is not paused, and the top task is due. */
  predicate Pops(s: System, l: Label) {
    match l
    case TimerLock(top) => s.sh.queue != multiset{} && !s.sh.paused && top.executeAt <= s.now
    case TimerTaskSeen(top) =>
      s.sh.isRunning && s.sh.queue != multiset{} && !s.sh.paused && top.executeAt <= s.now
    case _ => false
  }

  /** The rest of the timer's loop body once it no longer waits for a task. */
  function TimerBody(s: System, top: Task): System {
    if s.sh.paused then s.(timer := TimerWaitResume)
    else if s.sh.queue == multiset{} then s.(timer := TimerHead)
    else if top.executeAt <= s.now then DoPop(s, top)
    else s.(timer := TimerWaitDue)
  }

  function DoTake(s: System, w: nat): System
    requires w < |s.workers| && s.sh.ready != []
  {
    var t := s.sh.ready[0];
    s.(sh := Take(s.sh), workers := s.workers[w := WorkerBusy(t)], hist := Move(s.hist, t.id, Held(w)))
  }

  function OriginOf(h: History, id: TaskId): TaskId {
    if id in h.origin then h.origin[id] else id
  }

  function DoFinish(s: System, w: nat, goOn: bool): System
    requires w < |s.workers| && s.workers[w].WorkerBusy?
  {
    var t := s.workers[w].task;
    var h := Move(s.hist, t.id, Finished);
    s.(sh := Finish(s.sh, t, s.now, goOn), workers := s.workers[w := WorkerHead],
       hist := if Reschedules(s.sh, t, goOn)
         then Record(h, NextOccurrence(s.sh, t, s.now), Queued, OriginOf(h, t.id))
         else h)
  }

  function Apply(s: System, l: Label): System
    requires Enabled(s, l)
  {
    match l
    case Tick(d) => s.(now := s.now + d)
    case Draw(c, request, delay) => DoDraw(s, c, request, delay)
    case Lock(c) => DoLock(s, c)
    case CallCancel(id) => s.(sh := Cancel(s.sh, id))
    case CallCancelByTag(tag) => s.(sh := CancelByTag(s.sh, tag))
    case CallCancelAll => s.(sh := CancelAll(s.sh))
    case CallPause => s.(sh := s.sh.(paused := true))
    case CallResume => s.(sh := s.sh.(paused := false))
    case CallStop => s.(sh := s.sh.(isRunning := false))
    case TimerLoop => s.(timer := if s.sh.isRunning then TimerEntering else TimerExited)
    case TimerLock(top) => if s.sh.queue == multiset{} then s.(timer := TimerWaitTask) else TimerBody(s, top)
    case TimerTaskSeen(top) => if !s.sh.isRunning then s.(timer := TimerExited) else TimerBody(s, top)
    case TimerResumed => s.(timer := if !s.sh.isRunning then TimerExited else TimerHead)
    case TimerWoken => s.(timer := TimerHead)
    case WorkerLoop(w) => s.(workers := s.workers[w := if s.sh.isRunning then WorkerWaiting else WorkerExited])
    case WorkerTake(w) => if s.sh.ready == [] then s.(workers := s.workers[w := WorkerExited]) else DoTake(s, w)
    case WorkerFinish(w, goOn) => DoFinish(s, w, goOn)
  }
}
