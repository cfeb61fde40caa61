/** What the callers of the scheduler get over whole runs: their delays, their cancellations, and what
    `pause` and `stop` switch. */
module SchedulerCalls {
  import opened Wrappers
  import opened SchedulerShared
  import opened SchedulerSystem
  import opened SchedulerInvariant
  import opened SchedulerRuns
  import opened SchedulerEffects

  // ----- schedule -----

  /** The task behind an id is the one that was asked for, and is due at the given time. */
  ghost predicate IsRequested(h: History, id: TaskId, request: Task, due: Time) {
    && id in h.tasks
    && h.tasks[id].id == id
    && h.tasks[id].tag == request.tag
    && h.tasks[id].priority == request.priority
    && h.tasks[id].executeAt == due
    && h.tasks[id].interval == request.interval
    && h.tasks[id].callback == request.callback
    && h.tasks[id].shouldContinue == request.shouldContinue
  }

  /** In every run, from the moment an id has been drawn for a request, the task behind it is that
      request, due its delay later. */
  lemma {:induction false} DrawnIsRequested(states: seq<System>, labels: seq<Label>, c: nat, request: Task, delay: int,
                                            i: nat, j: nat)
    requires IsRun(states, labels) && i < j < |states| && labels[i] == Draw(c, request, delay)
    ensures IsRequested(states[j].hist, states[i].sh.nextId, request, states[i].now + delay)
    decreases j
  {
    assert IsStep(states, labels, i);
    if j > i + 1 {
      DrawnIsRequested(states, labels, c, request, delay, i, j - 1);
      RunTaskStays(states, labels, states[i].sh.nextId, j - 1);
    }
  }

  lemma RunTaskStays(states: seq<System>, labels: seq<Label>, id: TaskId, i: nat)
    requires IsRun(states, labels) && i < |labels| && id in states[i].hist.tasks
    ensures id in states[i + 1].hist.tasks && states[i + 1].hist.tasks[id] == states[i].hist.tasks[id]
  {
    RunInv(states, labels, i);
    assert IsStep(states, labels, i);
    DrawnIds(states[i]);
    PlaceFollows(states[i], labels[i], id);
  }

  /** In no run does a scheduled task start before its delay has passed since `schedule` read the
      clock; and what starts is what was asked for. */
  lemma StartsAfterDelay(states: seq<System>, labels: seq<Label>, c: nat, request: Task, delay: int, i: nat, j: nat)
    requires IsRun(states, labels) && i < j < |labels| && labels[i] == Draw(c, request, delay)
    requires Starts(states[j], labels[j], states[i].sh.nextId)
    ensures states[j].now >= states[i].now + delay
    ensures states[j].sh.ready[0].callback == request.callback && states[j].sh.ready[0].interval == request.interval
  {
    DrawnIsRequested(states, labels, c, request, delay, i, j);
    RunInv(states, labels, j);
    assert IsStep(states, labels, j);
    StartedIsDue(states[j], labels[j], states[i].sh.nextId);
  }

  // ----- stop and pause -----

  lemma SwitchStep(s: System, l: Label)
    requires Enabled(s, l)
    ensures Apply(s, l).sh.isRunning == (s.sh.isRunning && l != CallStop)
    ensures Apply(s, l).sh.paused == (l == CallPause || (s.sh.paused && l != CallResume))
  {
    match l
    case TimerLock(_) => TimerHistory(s, l);
    case TimerTaskSeen(_) => TimerHistory(s, l);
    case _ =>
  }

  /** The scheduler runs until the first `stop`. */
  lemma {:induction false} RunningUntilStop(states: seq<System>, labels: seq<Label>, j: nat)
    requires IsRun(states, labels) && j < |states|
    ensures states[j].sh.isRunning <==> forall k :: 0 <= k < j ==> labels[k] != CallStop
    decreases j
  {
    if j == 0 {
    } else {
      RunningUntilStop(states, labels, j - 1);
      assert IsStep(states, labels, j - 1);
      SwitchStep(states[j - 1], labels[j - 1]);
    }
  }

  /** It is paused when there has been a `pause` and no `resume` since. */
  ghost predicate PausedBy(labels: seq<Label>, j: nat)
    requires j <= |labels|
  {
    exists k :: 0 <= k < j && labels[k] == CallPause && forall m :: k < m < j ==> labels[m] != CallResume
  }

  lemma {:induction false} PausedUntilResume(states: seq<System>, labels: seq<Label>, j: nat)
    requires IsRun(states, labels) && j < |states|
    ensures states[j].sh.paused <==> PausedBy(labels, j)
    decreases j
  {
    if j == 0 {
    } else {
      PausedUntilResume(states, labels, j - 1);
      assert IsStep(states, labels, j - 1);
      SwitchStep(states[j - 1], labels[j - 1]);
      PausedByStep(labels, j - 1);
    }
  }

  lemma PausedByStep(labels: seq<Label>, j: nat)
    requires j < |labels|
    ensures PausedBy(labels, j + 1) <==> labels[j] == CallPause || (PausedBy(labels, j) && labels[j] != CallResume)
  {
    if PausedBy(labels, j) && labels[j] != CallResume {
      var k :| 0 <= k < j && labels[k] == CallPause && forall m :: k < m < j ==> labels[m] != CallResume;
      assert 0 <= k < j + 1 && forall m :: k < m < j + 1 ==> labels[m] != CallResume;
    }
    if PausedBy(labels, j + 1) && labels[j] != CallPause {
      var k :| 0 <= k < j + 1 && labels[k] == CallPause && forall m :: k < m < j + 1 ==> labels[m] != CallResume;
      assert 0 <= k < j && forall m :: k < m < j ==> labels[m] != CallResume;
    }
  }

  lemma PausedStep(s: System, l: Label, id: TaskId)
    requires PlacesInv(s) && Enabled(s, l) && s.sh.paused && At(s.hist, id, Queued)
    ensures At(Apply(s, l).hist, id, Queued)
  {
    DrawnIds(s);
    EventPlaces(s, l, id);
    PausedPlace(s, l, id);
    PlaceFollows(s, l, id);
  }

  lemma PausedPlace(s: System, l: Label, id: TaskId)
    requires InOrder(s, l, id) && s.sh.paused && At(s.hist, id, Queued)
    ensures PlaceAfter(s, l, id, Queued) == Queued
  {
  }

  /** From a `pause` to the next `resume` no task leaves the queue, due or not, cancelled or not. */
  lemma {:induction false} PauseHoldsQueue(states: seq<System>, labels: seq<Label>, id: TaskId, i: nat, j: nat)
    requires IsRun(states, labels) && i < j < |states| && labels[i] == CallPause
    requires forall k :: i < k < j ==> labels[k] != CallResume
    requires At(states[i].hist, id, Queued)
    ensures At(states[j].hist, id, Queued)
    decreases j
  {
    if j == i + 1 {
      assert IsStep(states, labels, i);
    } else {
      PauseHoldsQueue(states, labels, id, i, j - 1);
      PausedUntilResume(states, labels, j - 1);
      assert labels[i] == CallPause && forall m :: i < m < j - 1 ==> labels[m] != CallResume;
      RunPausedStep(states, labels, id, j - 1);
    }
  }

  lemma RunPausedStep(states: seq<System>, labels: seq<Label>, id: TaskId, i: nat)
    requires IsRun(states, labels) && i < |labels| && states[i].sh.paused && At(states[i].hist, id, Queued)
    ensures At(states[i + 1].hist, id, Queued)
  {
    RunInv(states, labels, i);
    assert IsStep(states, labels, i);
    PausedStep(states[i], labels[i], id);
  }

  /** A `schedule` takes effect exactly when it gets the lock before the first `stop`: its task is then
      queued, and otherwise refused. */
  lemma LockAccepts(states: seq<System>, labels: seq<Label>, c: nat, i: nat)
    requires IsRun(states, labels) && i < |labels| && labels[i] == Lock(c)
    ensures c in states[i].callers
    ensures var id := states[i].callers[c].id;
      && At(states[i].hist, id, Flying(c))
      && (At(states[i + 1].hist, id, Queued) <==> forall k :: 0 <= k < i ==> labels[k] != CallStop)
      && (At(states[i + 1].hist, id, Rejected) <==> exists k :: 0 <= k < i && labels[k] == CallStop)
  {
    RunningUntilStop(states, labels, i);
    assert IsStep(states, labels, i);
    LockLands(states[i], c);
    RunFlying(states, labels, c, i);
  }

  lemma LockLands(s: System, c: nat)
    requires c in s.callers
    ensures At(Apply(s, Lock(c)).hist, s.callers[c].id, if s.sh.isRunning then Queued else Rejected)
  {
  }

  lemma RunFlying(states: seq<System>, labels: seq<Label>, c: nat, i: nat)
    requires IsRun(states, labels) && i < |labels| && c in states[i].callers && labels[i] == Lock(c)
    ensures At(states[i].hist, states[i].callers[c].id, Flying(c))
  {
    RunInv(states, labels, i);
    assert IsStep(states, labels, i);
    EventPlaces(states[i], labels[i], states[i].callers[c].id);
  }

  /** No call ever waits for another: a caller that has drawn an id can lock, and any other call can be
      made, in every state. */
  lemma CallersNeverWait(s: System, c: nat, request: Task, delay: int, id: TaskId, tag: string)
    ensures c in s.callers ==> Enabled(s, Lock(c))
    ensures c !in s.callers ==> Enabled(s, Draw(c, request, delay))
    ensures Enabled(s, CallCancel(id)) && Enabled(s, CallCancelByTag(tag)) && Enabled(s, CallCancelAll)
    ensures Enabled(s, CallPause) && Enabled(s, CallResume) && Enabled(s, CallStop)
  {
  }

  // ----- cancel -----

  predicate IsCancel(l: Label) {
    l.CallCancel? || l.CallCancelByTag? || l.CallCancelAll?
  }

  /** Nothing but a cancelling call adds a mark, and a mark goes only with its task. */
  lemma OtherMarks(s: System, l: Label, id: TaskId)
    requires Enabled(s, l) && !IsCancel(l)
    ensures id in Apply(s, l).sh.cancelled ==> id in s.sh.cancelled
    ensures id in s.sh.cancelled && id !in Apply(s, l).sh.cancelled ==> Drops(s, l, id) || Finishes(s, l, id)
  {
    match l
    case TimerLock(_) => TimerHistory(s, l);
    case TimerTaskSeen(_) => TimerHistory(s, l);
    case WorkerFinish(_, _) =>
    case _ => MarksSame(s, l);
  }

  lemma MarksSame(s: System, l: Label)
    requires Enabled(s, l) && !IsCancel(l) && !l.TimerLock? && !l.TimerTaskSeen? && !l.WorkerFinish?
    ensures Apply(s, l).sh.cancelled == s.sh.cancelled
  {
  }

  ghost predicate IsLive(h: History, id: TaskId) {
    id in h.place && Live(h.place[id])
  }

  lemma LiveIsRank(h: History, id: TaskId)
    ensures IsLive(h, id) <==> 2 <= Rank(h, id) <= 4
  {
  }

  /** Some cancelling call has found the task. */
  ghost predicate HitBefore(states: seq<System>, labels: seq<Label>, id: TaskId, j: nat)
    requires j <= |labels| <= |states|
  {
    exists k :: 0 <= k < j && CancelHits(states[k], labels[k], id)
  }

  lemma HitBeforeStep(states: seq<System>, labels: seq<Label>, id: TaskId, j: nat)
    requires j < |labels| <= |states|
    ensures HitBefore(states, labels, id, j + 1)
       <==> HitBefore(states, labels, id, j) || CancelHits(states[j], labels[j], id)
  {
  }

  lemma MarkStep(s: System, l: Label, id: TaskId)
    requires Inv(s) && Enabled(s, l) && (id in s.sh.cancelled ==> IsLive(s.hist, id))
    ensures id in Apply(s, l).sh.cancelled
       <==> (id in s.sh.cancelled || CancelHits(s, l, id)) && IsLive(Apply(s, l).hist, id)
  {
    if IsCancel(l) {
      HitMarks(s, l, id);
    } else {
      StepFactsIfDrawn(s, l, id);
      OtherMarkStep(s, l, id);
    }
  }

  lemma OtherMarkStep(s: System, l: Label, id: TaskId)
    requires Enabled(s, l) && !IsCancel(l) && (id in s.sh.cancelled ==> IsLive(s.hist, id))
    requires id in s.hist.place ==> Drawn(s, id) && InOrder(s, l, id)
    ensures id in Apply(s, l).sh.cancelled <==> id in s.sh.cancelled && IsLive(Apply(s, l).hist, id)
  {
    OtherMarks(s, l, id);
    if id in s.sh.cancelled {
      PlaceFollows(s, l, id);
      LiveAfter(s, l, id);
      if Drops(s, l, id) || Finishes(s, l, id) {
        OverIsUnmarked(s, l, id);
      }
    }
  }

  lemma OverIsUnmarked(s: System, l: Label, id: TaskId)
    requires Enabled(s, l) && (Drops(s, l, id) || Finishes(s, l, id))
    ensures id !in Apply(s, l).sh.cancelled
  {
    if !l.WorkerFinish? {
      TimerHistory(s, l);
    }
  }

  lemma StepFactsIfDrawn(s: System, l: Label, id: TaskId)
    requires Inv(s) && Enabled(s, l)
    ensures id in s.hist.place ==> Drawn(s, id) && InOrder(s, l, id)
  {
    DrawnIds(s);
    EventPlaces(s, l, id);
  }

  lemma LiveAfter(s: System, l: Label, id: TaskId)
    requires InOrder(s, l, id) && id in s.hist.place && Live(s.hist.place[id]) && id in s.sh.cancelled
    ensures Live(PlaceAfter(s, l, id, s.hist.place[id])) <==> !Drops(s, l, id) && !Finishes(s, l, id)
  {
  }

  /** In every run the cancelled marks are exactly those of the tasks that are queued, ready or running
      and that a cancelling call has found waiting: no step marks anything else, and no mark is lost. */
  lemma {:induction false} MarkedIff(states: seq<System>, labels: seq<Label>, id: TaskId, j: nat)
    requires IsRun(states, labels) && j < |states|
    ensures id in states[j].sh.cancelled <==> IsLive(states[j].hist, id) && HitBefore(states, labels, id, j)
    decreases j
  {
    if j == 0 {
    } else {
      MarkedIff(states, labels, id, j - 1);
      RunMarkStep(states, labels, id, j - 1);
      HitBeforeStep(states, labels, id, j - 1);
      if HitBefore(states, labels, id, j - 1) && IsLive(states[j].hist, id) {
        HitStaysLive(states, labels, id, j - 1);
      }
    }
  }

  lemma RunMarkStep(states: seq<System>, labels: seq<Label>, id: TaskId, i: nat)
    requires IsRun(states, labels) && i < |labels| && (id in states[i].sh.cancelled ==> IsLive(states[i].hist, id))
    ensures id in states[i + 1].sh.cancelled
       <==> (id in states[i].sh.cancelled || CancelHits(states[i], labels[i], id)) && IsLive(states[i + 1].hist, id)
  {
    RunInv(states, labels, i);
    assert IsStep(states, labels, i);
    MarkStep(states[i], labels[i], id);
  }

  lemma HitStaysLive(states: seq<System>, labels: seq<Label>, id: TaskId, i: nat)
    requires IsRun(states, labels) && i < |labels|
    requires HitBefore(states, labels, id, i) && IsLive(states[i + 1].hist, id)
    ensures IsLive(states[i].hist, id)
  {
    var k :| 0 <= k < i && CancelHits(states[k], labels[k], id);
    LiveIsRank(states[k].hist, id);
    LiveIsRank(states[i].hist, id);
    LiveIsRank(states[i + 1].hist, id);
    RankGrows(states, labels, id, k, i);
    RankGrows(states, labels, id, i, i + 1);
  }

  /** `is_pending` holds exactly for the tasks that are queued or ready and that no cancelling call has
      found. */
  lemma PendingIff(states: seq<System>, labels: seq<Label>, id: TaskId, j: nat)
    requires IsRun(states, labels) && j < |states|
    ensures IsPending(states[j].sh, id)
       <==> (At(states[j].hist, id, Queued) || At(states[j].hist, id, Ready)) && !HitBefore(states, labels, id, j)
  {
    MarkedIff(states, labels, id, j);
    RunInv(states, labels, j);
    WaitingIsPending(states[j], id);
  }

  lemma DroppedStep(s: System, l: Label, id: TaskId)
    requires Inv(s) && Enabled(s, l) && At(Apply(s, l).hist, id, Dropped)
    ensures At(s.hist, id, Dropped) || id in s.sh.cancelled
  {
    StepFactsIfDrawn(s, l, id);
    if id in s.hist.place {
      PlaceFollows(s, l, id);
    } else {
      SubjectIsDrawn(s, l);
      NewIsNotDropped(s, l, id);
    }
  }

  lemma NewIsNotDropped(s: System, l: Label, id: TaskId)
    requires Enabled(s, l) && SubjectDrawn(s, l) && id !in s.hist.place
    ensures !At(Apply(s, l).hist, id, Dropped)
  {
    if l.TimerLock? || l.TimerTaskSeen? {
      TimerHistory(s, l);
    }
  }

  /** The scheduler loses nothing: a task is dropped only if a cancelling call has found it. */
  lemma {:induction false} DroppedWasCancelled(states: seq<System>, labels: seq<Label>, id: TaskId, j: nat)
    requires IsRun(states, labels) && j < |states| && At(states[j].hist, id, Dropped)
    ensures HitBefore(states, labels, id, j)
    decreases j
  {
    if j > 0 {
      RunDroppedStep(states, labels, id, j - 1);
      if At(states[j - 1].hist, id, Dropped) {
        DroppedWasCancelled(states, labels, id, j - 1);
      } else {
        MarkedIff(states, labels, id, j - 1);
      }
      HitBeforeStep(states, labels, id, j - 1);
    }
  }

  lemma RunDroppedStep(states: seq<System>, labels: seq<Label>, id: TaskId, i: nat)
    requires IsRun(states, labels) && i < |labels| && At(states[i + 1].hist, id, Dropped)
    ensures At(states[i].hist, id, Dropped) || id in states[i].sh.cancelled
  {
    RunInv(states, labels, i);
    assert IsStep(states, labels, i);
    DroppedStep(states[i], labels[i], id);
  }

  /** What `cancel_by_tag` counts: the queued and ready tasks that carry the tag, also those that are
      cancelled already; an empty tag has none. */
  lemma CountedByTag(states: seq<System>, labels: seq<Label>, j: nat, tag: string, id: TaskId)
    requires IsRun(states, labels) && j < |states|
    ensures id in TaggedPending(states[j].sh, tag)
       <==> (At(states[j].hist, id, Queued) || At(states[j].hist, id, Ready))
            && tag != "" && id in states[j].hist.tasks && states[j].hist.tasks[id].tag == tag
  {
    RunInv(states, labels, j);
    TaggedIsIndexed(states[j], tag, id);
    WaitingIsPending(states[j], id);
  }

  /** Periodic tasks go on until they are cancelled or told to stop: when an occurrence has finished,
      its chain has another one exactly when it is periodic, no cancelling call has found it, and its
      flag, if it has one, is set. */
  lemma FinishGoesOn(states: seq<System>, labels: seq<Label>, i: nat, t: Task, origin: TaskId)
    requires IsRun(states, labels) && i < |labels| && Finishes(states[i], labels[i], t.id)
    requires t == states[i].workers[labels[i].worker].task && origin == OriginOf(states[i].hist, t.id)
    ensures ChainGoesOn(states[i + 1].hist, origin)
       <==> t.interval > 0 && !HitBefore(states, labels, t.id, i) && (t.shouldContinue.None? || labels[i].goOn)
  {
    FinishRenews(states, labels, i, t, origin);
    MarkedIff(states, labels, t.id, i);
    RunInv(states, labels, i);
    assert IsStep(states, labels, i);
    EventPlaces(states[i], labels[i], t.id);
  }
}
