/** That a running scheduler serves its queues: due tasks leave the queue and ready tasks start, within
    a few turns of the threads. */
module SchedulerProgress {
  import opened SchedulerShared
  import opened SchedulerSystem
  import opened SchedulerInvariant
  import opened SchedulerRuns
  import opened SchedulerEffects
  import opened SchedulerCalls

  // ----- the threads -----

  /** There is a worker whatever is asked for, and all threads begin at their loops. */
  lemma InitialThreads(threads: nat)
    ensures |Initial(threads).workers| == (if threads >= 1 then threads else 1)
    ensures Initial(threads).timer == TimerHead
    ensures forall w :: 0 <= w < |Initial(threads).workers| ==> Initial(threads).workers[w] == WorkerHead
  {
  }

  ghost predicate AllThreadsRun(s: System) {
    s.timer != TimerExited && forall w :: 0 <= w < |s.workers| ==> s.workers[w] != WorkerExited
  }

  lemma ThreadsStep(s: System, l: Label)
    requires Enabled(s, l) && s.sh.isRunning && AllThreadsRun(s)
    ensures AllThreadsRun(Apply(s, l)) && |Apply(s, l).workers| == |s.workers|
  {
    if !ThreadStep(l) {
      OthersKeepThreads(s, l);
    } else if l.WorkerLoop? || l.WorkerTake? || l.WorkerFinish? {
      RunningWorkerStep(s, l);
    } else {
      RunningTimerStep(s, l);
    }
  }

  lemma RunningWorkerStep(s: System, l: Label)
    requires Enabled(s, l) && s.sh.isRunning && (l.WorkerLoop? || l.WorkerTake? || l.WorkerFinish?)
    ensures Apply(s, l).timer == s.timer && l.worker < |s.workers| == |Apply(s, l).workers|
    ensures Apply(s, l).workers == s.workers[l.worker := Apply(s, l).workers[l.worker]]
    ensures match l
            case WorkerLoop(w) => s.workers[w] == WorkerHead && Apply(s, l).workers[w] == WorkerWaiting
            case WorkerTake(w) =>
              s.workers[w] == WorkerWaiting && s.sh.ready != [] && Apply(s, l).workers[w] == WorkerBusy(s.sh.ready[0])
            case WorkerFinish(w, _) => s.workers[w].WorkerBusy? && Apply(s, l).workers[w] == WorkerHead
  {
  }

  lemma RunningTimerStep(s: System, l: Label)
    requires Enabled(s, l) && s.sh.isRunning && TimerStep(l)
    ensures Apply(s, l).workers == s.workers && Apply(s, l).timer != TimerExited
  {
  }

  /** As long as the scheduler runs, no thread leaves its loop. */
  lemma {:induction false} ThreadsRun(states: seq<System>, labels: seq<Label>, j: nat)
    requires IsRun(states, labels) && j < |states| && states[j].sh.isRunning
    ensures AllThreadsRun(states[j])
    decreases j
  {
    if j == 0 {
      var threads :| states[0] == Initial(threads);
      InitialThreads(threads);
    } else {
      assert IsStep(states, labels, j - 1);
      SwitchStep(states[j - 1], labels[j - 1]);
      ThreadsRun(states, labels, j - 1);
      ThreadsStep(states[j - 1], labels[j - 1]);
    }
  }

  // ----- the timer serves the queue -----

  /** The task leaves the queue: to the ready queue, or away as cancelled. */
  ghost predicate Leaves(s: System, l: Label, id: TaskId) {
    && Enabled(s, l)
    && At(s.hist, id, Queued) && (At(Apply(s, l).hist, id, Ready) || At(Apply(s, l).hist, id, Dropped))
  }

  ghost predicate SomeLeaves(s: System, l: Label) {
    exists id :: Leaves(s, l, id)
  }

  /** Something is queued that is due, and nothing holds the timer back. */
  ghost predicate ToServe(s: System, a: Task) {
    s.sh.isRunning && !s.sh.paused && a in s.sh.queue && a.executeAt <= s.now
  }

  lemma TopIsDue(queue: multiset<Task>, top: Task, a: Task)
    requires IsTop(queue, top) && a in queue
    ensures top.executeAt <= a.executeAt
  {
    assert !After(top, a);
  }

  lemma LockServes(s: System, l: Label, a: Task)
    requires PlacesInv(s) && Enabled(s, l) && ToServe(s, a) && (l.TimerLock? || l.TimerTaskSeen?)
    ensures l.top in s.sh.queue && Leaves(s, l, l.top.id) && forall u :: u in s.sh.queue ==> !After(l.top, u)
  {
    TopIsDue(s.sh.queue, l.top, a);
    TimerHistory(s, l);
    assert Known(s.hist, l.top, Queued);
  }

  /** In every run, when the timer gets the lock while something is due, a task leaves the queue: one
      that no other queued task comes strictly before. */
  lemma TimerServes(states: seq<System>, labels: seq<Label>, i: nat, a: Task)
    requires IsRun(states, labels) && i < |labels| && (labels[i].TimerLock? || labels[i].TimerTaskSeen?)
    requires ToServe(states[i], a)
    ensures exists t :: t in states[i].sh.queue && Leaves(states[i], labels[i], t.id)
                        && forall u :: u in states[i].sh.queue ==> !After(t, u)
  {
    RunInv(states, labels, i);
    assert IsStep(states, labels, i);
    LockServes(states[i], labels[i], a);
  }

  /** How many steps the timer is from the next look at the queue. */
  function TimerAway(pc: TimerPc): nat {
    match pc
    case TimerEntering => 1
    case TimerWaitTask => 1
    case TimerHead => 2
    case TimerWaitResume => 3
    case TimerWaitDue => 3
    case TimerExited => 0
  }

  /** While something is to be served, the timer is not stuck ... */
  lemma TimerCanStep(s: System, a: Task) returns (l: Label)
    requires ToServe(s, a) && s.timer != TimerExited
    ensures TimerStep(l) && Enabled(s, l)
  {
    var top := TopExists(s.sh.queue);
    match s.timer
    case TimerHead => l := TimerLoop;
    case TimerEntering => l := TimerLock(top);
    case TimerWaitTask => l := TimerTaskSeen(top);
    case TimerWaitResume => l := TimerResumed;
    case TimerWaitDue => l := TimerWoken;
  }

  /** ... and each of its steps brings it nearer, or lets a task leave. */
  lemma TimerComesNearer(s: System, l: Label, a: Task)
    requires PlacesInv(s) && Enabled(s, l) && ToServe(s, a) && TimerStep(l)
    ensures SomeLeaves(s, l) || TimerAway(Apply(s, l).timer) < TimerAway(s.timer)
  {
    if l.TimerLock? || l.TimerTaskSeen? {
      LockServes(s, l, a);
    } else {
      TimerOnItsWay(s, l);
    }
  }

  lemma TimerOnItsWay(s: System, l: Label)
    requires Enabled(s, l) && s.sh.isRunning && TimerStep(l) && !l.TimerLock? && !l.TimerTaskSeen?
    ensures TimerAway(Apply(s, l).timer) < TimerAway(s.timer)
  {
  }

  lemma OthersKeepTimer(s: System, l: Label)
    requires Enabled(s, l) && !TimerStep(l)
    ensures Apply(s, l).timer == s.timer
  {
  }

  lemma StillToServe(s: System, l: Label, a: Task)
    requires Inv(s) && Enabled(s, l) && ToServe(s, a) && l != CallStop && l != CallPause && !Leaves(s, l, a.id)
    ensures ToServe(Apply(s, l), a)
  {
    assert Known(s.hist, a, Queued);
    StepKeepsInv(s, l);
    StepFactsIfDrawn(s, l, a.id);
    PlaceFollows(s, l, a.id);
    SwitchStep(s, l);
    TickNeverBack(s, l);
    StillQueued(s, Apply(s, l), a);
  }

  lemma StillQueued(s: System, s': System, a: Task)
    requires QueueInv(s'.hist, s'.sh.queue) && Known(s'.hist, a, Queued)
    ensures a in s'.sh.queue
  {
  }

  ghost function TimerSteps(labels: seq<Label>, i: nat, j: nat): nat
    requires i <= j <= |labels|
  {
    if i == j then 0 else TimerSteps(labels, i, j - 1) + Counts(TimerStep(labels[j - 1]))
  }

  ghost predicate LeavesIn(states: seq<System>, labels: seq<Label>, i: nat, j: nat)
    requires i <= j <= |labels| <= |states|
  {
    exists k :: i <= k < j && SomeLeaves(states[k], labels[k])
  }

  lemma TimerApproaches(s: System, l: Label, a: Task)
    requires Inv(s) && Enabled(s, l) && ToServe(s, a) && l != CallStop && l != CallPause
    requires !SomeLeaves(s, l)
    ensures ToServe(Apply(s, l), a)
    ensures Counts(TimerStep(l)) + TimerAway(Apply(s, l).timer) <= TimerAway(s.timer)
  {
    StillToServe(s, l, a);
    if TimerStep(l) {
      TimerComesNearer(s, l, a);
    } else {
      OthersKeepTimer(s, l);
    }
  }

  lemma {:induction false} TimerWithin(states: seq<System>, labels: seq<Label>, a: Task, i: nat, j: nat)
    requires IsRun(states, labels) && i <= j < |states| && ToServe(states[i], a)
    requires forall k :: i <= k < j ==> labels[k] != CallStop && labels[k] != CallPause
    requires !LeavesIn(states, labels, i, j)
    ensures ToServe(states[j], a)
    ensures TimerSteps(labels, i, j) + TimerAway(states[j].timer) <= TimerAway(states[i].timer)
    decreases j
  {
    if i == j {
    } else {
      TimerWithin(states, labels, a, i, j - 1);
      assert !SomeLeaves(states[j - 1], labels[j - 1]);
      RunTimerApproaches(states, labels, a, j - 1);
    }
  }

  lemma RunTimerApproaches(states: seq<System>, labels: seq<Label>, a: Task, i: nat)
    requires IsRun(states, labels) && i < |labels| && ToServe(states[i], a)
    requires labels[i] != CallStop && labels[i] != CallPause && !SomeLeaves(states[i], labels[i])
    ensures ToServe(states[i + 1], a)
    ensures Counts(TimerStep(labels[i])) + TimerAway(states[i + 1].timer) <= TimerAway(states[i].timer)
  {
    RunInv(states, labels, i);
    assert IsStep(states, labels, i);
    TimerApproaches(states[i], labels[i], a);
  }

  /** A due task is not left lying: in every run, between two moments with no `stop` and no `pause` in
      between, the first with something due in the queue of a running, unpaused scheduler, the third
      step of the timer at the latest lets a task leave the queue. */
  lemma DueIsServed(states: seq<System>, labels: seq<Label>, a: Task, i: nat, j: nat)
    requires IsRun(states, labels) && i <= j < |states| && ToServe(states[i], a)
    requires forall k :: i <= k < j ==> labels[k] != CallStop && labels[k] != CallPause
    requires TimerSteps(labels, i, j) >= 3
    ensures LeavesIn(states, labels, i, j)
  {
    if !LeavesIn(states, labels, i, j) {
      TimerWithin(states, labels, a, i, j);
      ThreadsRun(states, labels, j);
    }
  }

  // ----- the workers serve the ready queue -----

  /** A worker that waits for work takes the task that has been ready the longest, also after `stop`. */
  lemma TakeServes(states: seq<System>, labels: seq<Label>, i: nat, w: nat)
    requires IsRun(states, labels) && i < |labels| && labels[i] == WorkerTake(w) && states[i].sh.ready != []
    ensures var id := states[i].sh.ready[0].id;
            At(states[i].hist, id, Ready) && At(states[i + 1].hist, id, Held(w))
    ensures states[i + 1].sh.ready == states[i].sh.ready[1..]
  {
    RunInv(states, labels, i);
    assert IsStep(states, labels, i);
    EventPlaces(states[i], labels[i], states[i].sh.ready[0].id);
  }

  /** How many steps a worker is from the next look at the ready queue. */
  function WorkerAway(pc: WorkerPc): nat {
    match pc
    case WorkerWaiting => 1
    case WorkerHead => 2
    case WorkerBusy(_) => 3
    case WorkerExited => 0
  }

  predicate StepOf(l: Label, w: nat) {
    (l.WorkerLoop? || l.WorkerTake? || l.WorkerFinish?) && l.worker == w
  }

  /** While something is ready, no worker is stuck, the callback that a busy one runs being about to
      return. */
  lemma WorkerCanStep(s: System, w: nat)
    requires s.sh.isRunning && s.sh.ready != [] && AllThreadsRun(s) && w < |s.workers|
    ensures Enabled(s, WorkerLoop(w)) || Enabled(s, WorkerTake(w)) || Enabled(s, WorkerFinish(w, true))
  {
  }

  lemma WorkerApproaches(s: System, l: Label, w: nat)
    requires Enabled(s, l) && s.sh.isRunning && w < |s.workers|
    requires !(l == WorkerTake(w) && s.sh.ready != [])
    ensures |Apply(s, l).workers| == |s.workers|
    ensures Counts(StepOf(l, w)) + WorkerAway(Apply(s, l).workers[w]) <= WorkerAway(s.workers[w])
  {
    if !ThreadStep(l) {
      OthersKeepThreads(s, l);
    } else if l.WorkerLoop? || l.WorkerTake? || l.WorkerFinish? {
      RunningWorkerStep(s, l);
    } else {
      RunningTimerStep(s, l);
    }
  }

  ghost function StepsOf(labels: seq<Label>, w: nat, i: nat, j: nat): nat
    requires i <= j <= |labels|
  {
    if i == j then 0 else StepsOf(labels, w, i, j - 1) + Counts(StepOf(labels[j - 1], w))
  }

  lemma {:induction false} WorkerWithin(states: seq<System>, labels: seq<Label>, w: nat, i: nat, j: nat)
    requires IsRun(states, labels) && i <= j < |states| && w < |states[i].workers|
    requires forall k :: i <= k < j ==> states[k].sh.isRunning
    requires forall k :: i <= k < j ==> !(labels[k] == WorkerTake(w) && states[k].sh.ready != [])
    ensures w < |states[j].workers|
    ensures StepsOf(labels, w, i, j) + WorkerAway(states[j].workers[w]) <= WorkerAway(states[i].workers[w])
    decreases j
  {
    if i == j {
    } else {
      WorkerWithin(states, labels, w, i, j - 1);
      assert IsStep(states, labels, j - 1);
      WorkerApproaches(states[j - 1], labels[j - 1], w);
    }
  }

  /** Nor is a ready task: in every run, while something is ready and the scheduler runs, the third
      step of any worker at the latest starts a task. */
  lemma ReadyIsServed(states: seq<System>, labels: seq<Label>, w: nat, i: nat, j: nat)
    requires IsRun(states, labels) && i <= j < |states| && w < |states[i].workers|
    requires forall k :: i <= k <= j ==> states[k].sh.isRunning && states[k].sh.ready != []
    requires StepsOf(labels, w, i, j) >= 3
    ensures exists k ::
      i <= k < j && labels[k] == WorkerTake(w) && Starts(states[k], labels[k], states[k].sh.ready[0].id)
  {
    if forall k :: i <= k < j ==> labels[k] != WorkerTake(w) {
      WorkerWithin(states, labels, w, i, j);
      ThreadsRun(states, labels, j);
    } else {
      var k :| i <= k < j && labels[k] == WorkerTake(w);
      assert states[k].sh.isRunning;
    }
  }
}
