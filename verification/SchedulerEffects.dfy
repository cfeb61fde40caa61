/** What `cancel` and `stop` bring about in every continuation of a run, and what the queries count. */
module SchedulerEffects {
  import opened Wrappers
  import opened SchedulerShared
  import opened SchedulerSystem
  import opened SchedulerInvariant
  import opened SchedulerRuns

  // ----- cancellation -----

  predicate Over(p: Place) {
    p == Finished || p == Dropped || p == Rejected
  }

  /** `id` carries the cancelled mark or is over, and its chain has no member drawn since `bound`. */
  ghost predicate Doomed(s: System, id: TaskId, origin: TaskId, bound: TaskId) {
    && id in s.hist.place && id in s.hist.origin && s.hist.origin[id] == origin
    && (id in s.sh.cancelled || Over(s.hist.place[id]))
    && (forall k :: ActiveIn(s.hist, k, origin) ==> k == id)
    && (forall k :: k in s.hist.origin && s.hist.origin[k] == origin ==> k < bound)
  }

  lemma MarkedIsDoomed(s: System, id: TaskId)
    requires Inv(s) && id in s.sh.cancelled
    ensures id in s.hist.origin && Doomed(s, id, s.hist.origin[id], s.sh.nextId)
  {
    assert ActiveIn(s.hist, id, s.hist.origin[id]);
  }

  /** The mark leaves only with the task itself. */
  lemma MarkStep(s: System, l: Label, id: TaskId)
    requires Enabled(s, l) && Drawn(s, id) && InOrder(s, l, id)
    requires id in s.sh.cancelled || Over(s.hist.place[id])
    requires id in s.sh.cancelled ==> Live(s.hist.place[id])
    ensures id in Apply(s, l).sh.cancelled || (id in Apply(s, l).hist.place && Over(Apply(s, l).hist.place[id]))
  {
    PlaceFollows(s, l, id);
    if id in s.sh.cancelled && id !in Apply(s, l).sh.cancelled {
      CancelledErase(s, l, id);
    }
  }

  lemma CancelledErase(s: System, l: Label, id: TaskId)
    requires Enabled(s, l) && id in s.sh.cancelled && id !in Apply(s, l).sh.cancelled
    ensures Drops(s, l, id) || Finishes(s, l, id)
  {
    match l
    case TimerLock(_) => TimerHistory(s, l);
    case TimerTaskSeen(_) => TimerHistory(s, l);
    case WorkerFinish(_, _) =>
    case _ => MarksStay(s, l);
  }

  lemma MarksStay(s: System, l: Label)
    requires Enabled(s, l) && !l.TimerLock? && !l.TimerTaskSeen? && !l.WorkerFinish?
    ensures s.sh.cancelled <= Apply(s, l).sh.cancelled
  {
  }

  lemma DoomedChainStep(s: System, l: Label, id: TaskId, origin: TaskId, bound: TaskId, k: TaskId)
    requires Inv(s) && Enabled(s, l) && Doomed(s, id, origin, bound)
    requires k in Apply(s, l).hist.origin && Apply(s, l).hist.origin[k] == origin
    ensures k in s.hist.origin && s.hist.origin[k] == origin
    ensures ActiveIn(Apply(s, l).hist, k, origin) ==> ActiveIn(s.hist, k, origin)
  {
    DrawnIds(s);
    EventPlaces(s, l, k);
    if k in s.hist.place {
      PlaceFollows(s, l, k);
      if ActiveIn(Apply(s, l).hist, k, origin) {
        StaysActiveIn(s, l, k, origin);
      }
    } else {
      HistoryKeys(s, l);
      NoRenewal(s, l, id, origin, bound, k);
    }
  }

  lemma RenewedElsewhere(s: System, l: Label, id: TaskId, origin: TaskId, bound: TaskId)
    requires Inv(s) && Enabled(s, l) && Doomed(s, id, origin, bound)
    ensures Renews(s, l) ==> OriginOf(s.hist, s.workers[l.worker].task.id) != origin
  {
    if Renews(s, l) {
      RenewedIsActive(s, l.worker);
      EventPlaces(s, l, s.workers[l.worker].task.id);
      RenewerIsNot(s, l, id, origin, bound);
    }
  }

  lemma RenewerIsNot(s: System, l: Label, id: TaskId, origin: TaskId, bound: TaskId)
    requires Doomed(s, id, origin, bound) && Renews(s, l)
    requires var t := s.workers[l.worker].task;
      t.id in s.hist.origin && ActiveIn(s.hist, t.id, s.hist.origin[t.id]) && At(s.hist, t.id, Held(l.worker))
    ensures OriginOf(s.hist, s.workers[l.worker].task.id) != origin
  {
  }

  lemma NewcomerOrigin(s: System, l: Label, origin: TaskId, k: TaskId)
    requires Enabled(s, l) && SubjectDrawn(s, l) && k !in s.hist.place && k in Apply(s, l).hist.place
    requires origin != s.sh.nextId
    requires Renews(s, l) ==> OriginOf(s.hist, s.workers[l.worker].task.id) != origin
    ensures k in Apply(s, l).hist.origin && Apply(s, l).hist.origin[k] != origin
  {
    NewIds(s, l, k);
  }

  lemma NoRenewal(s: System, l: Label, id: TaskId, origin: TaskId, bound: TaskId, k: TaskId)
    requires Inv(s) && Enabled(s, l) && Doomed(s, id, origin, bound)
    requires k !in s.hist.place && k in Apply(s, l).hist.place
    ensures k in Apply(s, l).hist.origin && Apply(s, l).hist.origin[k] != origin
  {
    SubjectIsDrawn(s, l);
    OriginIsOld(s, id, origin, bound);
    RenewedElsewhere(s, l, id, origin, bound);
    NewcomerOrigin(s, l, origin, k);
  }

  lemma OriginIsOld(s: System, id: TaskId, origin: TaskId, bound: TaskId)
    requires Inv(s) && Doomed(s, id, origin, bound)
    ensures origin != s.sh.nextId
  {
    OriginHasTask(s, id);
  }

  lemma HistoryKeys(s: System, l: Label)
    requires Inv(s) && Enabled(s, l)
    ensures Apply(s, l).hist.origin.Keys == Apply(s, l).hist.place.Keys
  {
    StepKeepsInv(s, l);
  }

  lemma DoomedStep(s: System, l: Label, id: TaskId, origin: TaskId, bound: TaskId)
    requires Inv(s) && Enabled(s, l) && Doomed(s, id, origin, bound)
    ensures Doomed(Apply(s, l), id, origin, bound)
  {
    var s' := Apply(s, l);
    DrawnIds(s);
    EventPlaces(s, l, id);
    PlaceFollows(s, l, id);
    MarkStep(s, l, id);
    forall k | k in s'.hist.origin && s'.hist.origin[k] == origin
      ensures k < bound && (ActiveIn(s'.hist, k, origin) ==> k == id)
    {
      DoomedChainStep(s, l, id, origin, bound, k);
    }
  }

  /** Where a cancelled task can still go: from the queue only away, from the ready queue only
      through its one run. */
  predicate CancelledPath(from: Place, to: Place) {
    match from
    case Queued => to == Queued || to == Dropped
    case Ready => to == Ready || to.Held? || to == Finished
    case Held(_) => to == from || to == Finished
    case _ => true
  }

  lemma CancelledPathStep(s: System, l: Label, id: TaskId, from: Place)
    requires Enabled(s, l) && Drawn(s, id) && InOrder(s, l, id)
    requires from == Queued && s.hist.place[id] == Queued ==> id in s.sh.cancelled
    requires CancelledPath(from, s.hist.place[id])
    ensures id in Apply(s, l).hist.place && CancelledPath(from, Apply(s, l).hist.place[id])
  {
    PlaceFollows(s, l, id);
  }

  lemma StepFacts(s: System, l: Label, id: TaskId)
    requires Inv(s) && Enabled(s, l) && id in s.hist.place
    ensures Drawn(s, id) && InOrder(s, l, id)
  {
    DrawnIds(s);
    EventPlaces(s, l, id);
  }

  lemma CancelledPlace(s: System, l: Label, id: TaskId, from: Place)
    requires Inv(s) && Enabled(s, l) && id in s.hist.place
    requires s.hist.place[id] == Queued ==> id in s.sh.cancelled
    requires CancelledPath(from, s.hist.place[id])
    ensures id in Apply(s, l).hist.place && CancelledPath(from, Apply(s, l).hist.place[id])
  {
    StepFacts(s, l, id);
    CancelledPathStep(s, l, id, from);
  }

  lemma {:induction false} CancelledOn(states: seq<System>, labels: seq<Label>, id: TaskId, i: nat, j: nat)
    requires IsRun(states, labels) && i <= j < |states|
    requires id in states[i].sh.cancelled
    ensures id in states[i].hist.origin && id in states[i].hist.place
    ensures Doomed(states[j], id, states[i].hist.origin[id], states[i].sh.nextId)
    ensures CancelledPath(states[i].hist.place[id], states[j].hist.place[id])
    decreases j
  {
    RunCancelledStart(states, labels, id, i);
    if i == j {
    } else {
      var origin, from := states[i].hist.origin[id], states[i].hist.place[id];
      CancelledOn(states, labels, id, i, j - 1);
      RunCancelledStep(states, labels, id, origin, states[i].sh.nextId, from, j - 1);
    }
  }

  lemma MarkedIsLive(s: System, id: TaskId)
    requires SetsInv(s.hist, s.sh) && s.hist.origin.Keys == s.hist.place.Keys && id in s.sh.cancelled
    ensures id in s.hist.origin && id in s.hist.place && CancelledPath(s.hist.place[id], s.hist.place[id])
  {
  }

  lemma RunCancelledStep(states: seq<System>, labels: seq<Label>, id: TaskId, origin: TaskId, bound: TaskId,
                         from: Place, j: nat)
    requires IsRun(states, labels) && j < |labels|
    requires Doomed(states[j], id, origin, bound) && CancelledPath(from, states[j].hist.place[id])
    ensures Doomed(states[j + 1], id, origin, bound) && CancelledPath(from, states[j + 1].hist.place[id])
  {
    RunDoomedStep(states, labels, id, origin, bound, j);
    RunPathStep(states, labels, id, from, j);
  }

  lemma RunDoomedStep(states: seq<System>, labels: seq<Label>, id: TaskId, origin: TaskId, bound: TaskId, j: nat)
    requires IsRun(states, labels) && j < |labels| && Doomed(states[j], id, origin, bound)
    ensures Doomed(states[j + 1], id, origin, bound)
  {
    RunInv(states, labels, j);
    assert IsStep(states, labels, j);
    DoomedStep(states[j], labels[j], id, origin, bound);
  }

  lemma RunPathStep(states: seq<System>, labels: seq<Label>, id: TaskId, from: Place, j: nat)
    requires IsRun(states, labels) && j < |labels|
    requires id in states[j].hist.place && CancelledPath(from, states[j].hist.place[id])
    requires states[j].hist.place[id] == Queued ==> id in states[j].sh.cancelled
    ensures id in states[j + 1].hist.place && CancelledPath(from, states[j + 1].hist.place[id])
  {
    RunInv(states, labels, j);
    assert IsStep(states, labels, j);
    CancelledPlace(states[j], labels[j], id, from);
  }

  lemma RunCancelledStart(states: seq<System>, labels: seq<Label>, id: TaskId, i: nat)
    requires IsRun(states, labels) && i < |states| && id in states[i].sh.cancelled
    ensures id in states[i].hist.origin && id in states[i].hist.place
    ensures Doomed(states[i], id, states[i].hist.origin[id], states[i].sh.nextId)
    ensures CancelledPath(states[i].hist.place[id], states[i].hist.place[id])
  {
    RunInv(states, labels, i);
    MarkedIsDoomed(states[i], id);
    MarkedIsLive(states[i], id);
  }

  lemma DoomedIsNotPending(s: System, id: TaskId, origin: TaskId, bound: TaskId)
    requires SetsInv(s.hist, s.sh) && Doomed(s, id, origin, bound)
    ensures !IsPending(s.sh, id)
  {
  }

  /** In every state of every run `cancel` accepts exactly the ids that are queued or ready: not one
      that is running, over, refused, or still on its way in. */
  lemma CancellableIsWaiting(states: seq<System>, labels: seq<Label>, i: nat, id: TaskId)
    requires IsRun(states, labels) && i < |states|
    ensures Cancellable(states[i].sh, id) <==> At(states[i].hist, id, Queued) || At(states[i].hist, id, Ready)
  {
    RunInv(states, labels, i);
  }

  /** The occurrence that a finishing task leaves behind, and when: spelled out field by field. */
  function Renewal(s: System, t: Task): Task {
    Task(s.sh.nextId, t.tag, t.priority, s.now + t.interval, t.interval, t.callback, t.shouldContinue)
  }

  lemma RenewedOccurrence(s: System, w: nat, goOn: bool, origin: TaskId)
    requires Enabled(s, WorkerFinish(w, goOn)) && Reschedules(s.sh, s.workers[w].task, goOn)
    requires origin == OriginOf(s.hist, s.workers[w].task.id)
    ensures var h' := DoFinish(s, w, goOn).hist;
            ActiveIn(h', s.sh.nextId, origin) && Known(h', Renewal(s, s.workers[w].task), Queued)
  {
  }

  ghost predicate ChainGoesOn(h: History, origin: TaskId) {
    exists k :: ActiveIn(h, k, origin)
  }

  lemma NoRenewedOccurrence(s: System, w: nat, goOn: bool)
    requires Inv(s) && w < |s.workers| && s.workers[w].WorkerBusy?
    requires !Reschedules(s.sh, s.workers[w].task, goOn)
    ensures !ChainGoesOn(DoFinish(s, w, goOn).hist, OriginOf(s.hist, s.workers[w].task.id))
  {
    NoOtherOccurrence(s, w);
    FinishSplits(s, w, goOn);
  }

  /** In every run, when an occurrence `t` has finished, its chain has another one exactly when `t` is
      periodic, is not cancelled and is not told to stop. */
  lemma FinishRenews(states: seq<System>, labels: seq<Label>, i: nat, t: Task, origin: TaskId)
    requires IsRun(states, labels) && i < |labels| && Finishes(states[i], labels[i], t.id)
    requires t == states[i].workers[labels[i].worker].task && origin == OriginOf(states[i].hist, t.id)
    ensures ChainGoesOn(states[i + 1].hist, origin)
       <==> t.interval > 0 && t.id !in states[i].sh.cancelled && (t.shouldContinue.None? || labels[i].goOn)
  {
    RunInv(states, labels, i);
    assert IsStep(states, labels, i);
    var s, w, goOn := states[i], labels[i].worker, labels[i].goOn;
    if Reschedules(s.sh, t, goOn) {
      RenewedOccurrence(s, w, goOn, origin);
    } else {
      NoRenewedOccurrence(s, w, goOn);
    }
  }

  /** That occurrence is queued, due one interval later, and otherwise the same; and it is the only one. */
  lemma RenewalIsQueued(states: seq<System>, labels: seq<Label>, i: nat, t: Task, origin: TaskId, k: TaskId)
    requires IsRun(states, labels) && i < |labels| && Finishes(states[i], labels[i], t.id)
    requires t == states[i].workers[labels[i].worker].task && origin == OriginOf(states[i].hist, t.id)
    requires ActiveIn(states[i + 1].hist, k, origin)
    ensures k == states[i].sh.nextId && Known(states[i + 1].hist, Renewal(states[i], t), Queued)
  {
    FinishRenews(states, labels, i, t, origin);
    assert IsStep(states, labels, i);
    RenewedOccurrence(states[i], labels[i].worker, labels[i].goOn, origin);
    ChainsDoNotOverlap(states, labels, i + 1, k, states[i].sh.nextId, origin);
  }

  /** A call of `cancel`, `cancel_by_tag` or `cancel_all` finds the task waiting. */
  ghost predicate CancelHits(s: System, l: Label, id: TaskId) {
    && (At(s.hist, id, Queued) || At(s.hist, id, Ready))
    && match l
       case CallCancel(k) => k == id
       case CallCancelByTag(tag) => Tagged(s.hist, tag, id)
       case CallCancelAll => true
       case _ => false
  }

  /** Such a call marks exactly the tasks that it finds. */
  lemma HitMarks(s: System, l: Label, id: TaskId)
    requires Inv(s) && (l.CallCancel? || l.CallCancelByTag? || l.CallCancelAll?)
    ensures Apply(s, l).hist == s.hist && Apply(s, l).sh.nextId == s.sh.nextId
    ensures id in Apply(s, l).sh.cancelled <==> id in s.sh.cancelled || CancelHits(s, l, id)
  {
    WaitingIsPending(s, id);
    if l.CallCancelByTag? {
      TaggedIsIndexed(s, l.tag, id);
    }
    HitIsMarked(s, l, id);
  }

  lemma HitIsMarked(s: System, l: Label, id: TaskId)
    requires l.CallCancel? || l.CallCancelByTag? || l.CallCancelAll?
    requires id in s.sh.pending <==> At(s.hist, id, Queued) || At(s.hist, id, Ready)
    requires id in s.sh.pending ==> id != INVALID_TASK_ID
    requires l.CallCancelByTag? ==>
      (id in TaggedPending(s.sh, l.tag) <==> id in s.sh.pending && Tagged(s.hist, l.tag, id))
    ensures Apply(s, l).hist == s.hist && Apply(s, l).sh.nextId == s.sh.nextId
    ensures id in Apply(s, l).sh.cancelled <==> id in s.sh.cancelled || CancelHits(s, l, id)
  {
  }

  lemma WaitingIsPending(s: System, id: TaskId)
    requires IdsInv(s.hist, s.sh.nextId) && SetsInv(s.hist, s.sh)
    ensures id in s.sh.pending <==> At(s.hist, id, Queued) || At(s.hist, id, Ready)
    ensures id in s.sh.pending ==> id != INVALID_TASK_ID
  {
  }

  lemma TaggedIsIndexed(s: System, tag: string, id: TaskId)
    requires SetsInv(s.hist, s.sh) && TagsInv(s.hist, s.sh.byTag)
    ensures id in TaggedPending(s.sh, tag) <==> id in s.sh.pending && Tagged(s.hist, tag, id)
  {
    assert Indexed(s.sh.byTag, tag, id) <==> Tagged(s.hist, tag, id);
  }

  /** The effect of a cancelling call that finds its task, in every continuation: the task is never
      pending again; if it was still queued it never starts; if it was ready it is never dropped and
      can only take its one run; and its periodic chain gets no further occurrence. */
  lemma CancelEffect(states: seq<System>, labels: seq<Label>, id: TaskId, i: nat, j: nat)
    requires IsRun(states, labels) && i < j < |states| && CancelHits(states[i], labels[i], id)
    ensures !IsPending(states[j].sh, id)
    ensures id in states[j].hist.place && CancelledPath(states[i].hist.place[id], states[j].hist.place[id])
    ensures j < |labels| && At(states[i].hist, id, Queued) ==> !Starts(states[j], labels[j], id)
    ensures id in states[i].hist.origin
    ensures forall k :: k in states[j].hist.origin && states[j].hist.origin[k] == states[i].hist.origin[id] ==>
      k < states[i].sh.nextId
  {
    RunHitMarks(states, labels, id, i);
    CancelledOn(states, labels, id, i + 1, j);
    RunNotPending(states, labels, id, j, states[i + 1].hist.origin[id], states[i + 1].sh.nextId);
    if j < |labels| {
      RunStartsReady(states, labels, id, j);
    }
  }

  lemma RunHitMarks(states: seq<System>, labels: seq<Label>, id: TaskId, i: nat)
    requires IsRun(states, labels) && i < |labels| && CancelHits(states[i], labels[i], id)
    ensures id in states[i + 1].sh.cancelled && states[i + 1].hist == states[i].hist
    ensures states[i + 1].sh.nextId == states[i].sh.nextId
  {
    RunInv(states, labels, i);
    assert IsStep(states, labels, i);
    HitMarks(states[i], labels[i], id);
  }

  lemma RunNotPending(states: seq<System>, labels: seq<Label>, id: TaskId, j: nat, origin: TaskId, bound: TaskId)
    requires IsRun(states, labels) && j < |states| && Doomed(states[j], id, origin, bound)
    ensures !IsPending(states[j].sh, id)
  {
    RunInv(states, labels, j);
    DoomedIsNotPending(states[j], id, origin, bound);
  }

  lemma RunStartsReady(states: seq<System>, labels: seq<Label>, id: TaskId, j: nat)
    requires IsRun(states, labels) && j < |labels|
    ensures Starts(states[j], labels[j], id) ==> At(states[j].hist, id, Ready)
  {
    RunInv(states, labels, j);
    assert IsStep(states, labels, j);
    EventPlaces(states[j], labels[j], id);
  }

  // ----- what the queries count -----

  /** `pending_count_by_tag` reads the tag index; it counts the pending tasks that carry the tag. */
  lemma PendingByTag(s: System, tag: string)
    requires Inv(s) && tag != ""
    ensures forall id :: id in PendingIdsByTag(s.sh, tag) <==>
      IsPending(s.sh, id) && id in s.hist.tasks && s.hist.tasks[id].tag == tag
  {
    forall id
      ensures id in PendingIdsByTag(s.sh, tag) <==>
        IsPending(s.sh, id) && id in s.hist.tasks && s.hist.tasks[id].tag == tag
    {
      PendingUnderTag(s.hist, s.sh, tag, id);
    }
  }

  lemma PendingUnderTag(h: History, sh: Shared, tag: string, id: TaskId)
    requires SetsInv(h, sh) && TagsInv(h, sh.byTag) && h.tasks.Keys == h.place.Keys && tag != ""
    ensures id in PendingIdsByTag(sh, tag) <==> IsPending(sh, id) && id in h.tasks && h.tasks[id].tag == tag
  {
    assert Indexed(sh.byTag, tag, id) <==> Tagged(h, tag, id);
  }

  /** In every reachable state: after `cancel_by_tag` nothing is pending under the tag, other tags are
      as before, and nothing else stops being pending. */
  lemma CancelByTagEffect(states: seq<System>, labels: seq<Label>, i: nat, tag: string, other: string)
    requires IsRun(states, labels) && i < |states|
    ensures var sh := states[i].sh;
      && PendingIdsByTag(CancelByTag(sh, tag), tag) == {}
      && (other != tag ==> PendingIdsByTag(CancelByTag(sh, tag), other) == PendingIdsByTag(sh, other))
      && PendingIds(CancelByTag(sh, tag)) == PendingIds(sh) - PendingIdsByTag(sh, tag)
  {
    OwnTagGone(states[i].sh, tag);
    if other != tag {
      RunInv(states, labels, i);
      OtherTagSame(states[i], tag, other);
    }
  }

  lemma OwnTagGone(sh: Shared, tag: string)
    ensures PendingIdsByTag(CancelByTag(sh, tag), tag) == {}
    ensures PendingIds(CancelByTag(sh, tag)) == PendingIds(sh) - PendingIdsByTag(sh, tag)
  {
  }

  lemma OtherTagSame(s: System, tag: string, other: string)
    requires Inv(s) && tag != other
    ensures PendingIdsByTag(CancelByTag(s.sh, tag), other) == PendingIdsByTag(s.sh, other)
  {
    TagsAreDisjoint(s.hist, s.sh, tag, other);
    OtherTagKept(s.sh, tag, other);
  }

  lemma TagsAreDisjoint(h: History, sh: Shared, tag: string, other: string)
    requires TagsInv(h, sh.byTag) && tag != other
    ensures TaggedPending(sh, tag) !! TaggedPending(sh, other)
  {
    forall id
      ensures !(id in TaggedPending(sh, tag) && id in TaggedPending(sh, other))
    {
      assert Indexed(sh.byTag, tag, id) ==> Tagged(h, tag, id);
      assert Indexed(sh.byTag, other, id) ==> Tagged(h, other, id);
    }
  }

  lemma OtherTagKept(sh: Shared, tag: string, other: string)
    requires TaggedPending(sh, tag) !! TaggedPending(sh, other)
    ensures PendingIdsByTag(CancelByTag(sh, tag), other) == PendingIdsByTag(sh, other)
  {
    assert TaggedPending(CancelByTag(sh, tag), other) == TaggedPending(sh, other);
  }

  /** After `cancel_all` nothing is pending. */
  lemma CancelAllEffect(sh: Shared)
    ensures PendingIds(CancelAll(sh)) == {}
  {
  }

  // ----- what wait_all waits for -----

  /** The condition of `wait_all`. */
  predicate Idle(sh: Shared) {
    sh.pending == {} && sh.running == {}
  }

  /** The step tells `wait_all` that its condition may hold. */
  predicate NotifiesIdle(s: System, l: Label)
    requires Enabled(s, l)
  {
    l.WorkerFinish? && Idle(Apply(s, l).sh)
  }

  lemma IdleStep(s: System, l: Label)
    requires Enabled(s, l) && !Idle(s.sh) && Idle(Apply(s, l).sh)
    ensures NotifiesIdle(s, l) || (Pops(s, l) && l.top.id in s.sh.cancelled)
  {
    if l.TimerLock? || l.TimerTaskSeen? {
      TimerHistory(s, l);
    }
  }

  /** In every run, the step by which nothing is pending or running any more is either the finish of
      a worker, which notifies `wait_all`, or the drop of a cancelled task by the timer. */
  lemma IdleByFinishOrDrop(states: seq<System>, labels: seq<Label>, i: nat)
    requires IsRun(states, labels) && i < |labels| && !Idle(states[i].sh) && Idle(states[i + 1].sh)
    ensures Enabled(states[i], labels[i])
    ensures NotifiesIdle(states[i], labels[i]) <==> labels[i].WorkerFinish?
    ensures !labels[i].WorkerFinish? ==> exists id :: Drops(states[i], labels[i], id)
  {
    assert IsStep(states, labels, i);
    IdleStep(states[i], labels[i]);
    if !labels[i].WorkerFinish? {
      assert Drops(states[i], labels[i], labels[i].top.id);
    }
  }

  // A task is scheduled, and cancelled while it is queued.
  const ONLY_TASK: Task := Task(1, "", 0, 0, 0, 0, None)

  function Scheduled(): System {
    DoLock(DoDraw(Initial(1), 0, ONLY_TASK, 0), 0)
  }

  function CancelledAndDue(): System {
    Scheduled().(sh := Cancel(Scheduled().sh, 1), timer := TimerEntering)
  }

  lemma ScheduledState()
    ensures Enabled(Initial(1), Draw(0, ONLY_TASK, 0))
    ensures Enabled(DoDraw(Initial(1), 0, ONLY_TASK, 0), Lock(0))
    ensures Scheduled().sh.queue == multiset{ONLY_TASK} && Scheduled().sh.pending == {1}
    ensures Scheduled().sh.running == {} && Scheduled().sh.cancelled == {} && Scheduled().now == 0
    ensures Scheduled().timer == TimerHead && Scheduled().sh.isRunning && !Scheduled().sh.paused
  {
  }

  lemma CancelledState()
    ensures Enabled(CancelledAndDue(), TimerLock(ONLY_TASK))
    ensures !Idle(CancelledAndDue().sh) && Idle(DoPop(CancelledAndDue(), ONLY_TASK).sh)
    ensures Apply(CancelledAndDue(), TimerLock(ONLY_TASK)) == DoPop(CancelledAndDue(), ONLY_TASK)
  {
    ScheduledState();
    assert IsTop(CancelledAndDue().sh.queue, ONLY_TASK);
  }

  lemma OneMoreStep(states: seq<System>, labels: seq<Label>, l: Label)
    returns (states': seq<System>, labels': seq<Label>)
    requires IsRun(states, labels) && Enabled(states[|labels|], l)
    ensures labels' == labels + [l] && states' == states + [Apply(states[|labels|], l)]
    ensures IsRun(states', labels')
  {
    states', labels' := states + [Apply(states[|labels|], l)], labels + [l];
    forall i | 0 <= i < |labels'|
      ensures IsStep(states', labels', i)
    {
      if i < |labels| {
        assert IsStep(states, labels, i);
      }
    }
  }

  lemma CancelledRun() returns (states: seq<System>, labels: seq<Label>)
    ensures IsRun(states, labels) && |labels| == 4 && states[4] == CancelledAndDue()
  {
    ScheduledState();
    var s := Scheduled();
    states, labels := [Initial(1)], [];
    states, labels := OneMoreStep(states, labels, Draw(0, ONLY_TASK, 0));
    states, labels := OneMoreStep(states, labels, Lock(0));
    assert states[2] == s;
    states, labels := OneMoreStep(states, labels, CallCancel(1));
    states, labels := OneMoreStep(states, labels, TimerLoop);
  }

  /** A run that becomes idle without a notification: its only task is cancelled while it is queued. */
  lemma IdleUnnotified() returns (states: seq<System>, labels: seq<Label>)
    ensures IsRun(states, labels) && |labels| == 5
    ensures !Idle(states[4].sh) && Idle(states[5].sh)
    ensures Enabled(states[4], labels[4]) && !NotifiesIdle(states[4], labels[4])
  {
    CancelledState();
    states, labels := CancelledRun();
    var last, l := CancelledAndDue(), TimerLock(ONLY_TASK);
    states, labels := OneMoreStep(states, labels, l);
    assert states[4] == last && labels[4] == l && states[5] == DoPop(last, ONLY_TASK);
  }

  // ----- stop -----

  predicate ThreadStep(l: Label) {
    l.TimerLoop? || l.TimerLock? || l.TimerTaskSeen? || l.TimerResumed? || l.TimerWoken?
    || l.WorkerLoop? || l.WorkerTake? || l.WorkerFinish?
  }

  function TimerRank(pc: TimerPc): nat {
    match pc
    case TimerEntering => 3
    case TimerWaitTask => 2
    case TimerWaitResume => 2
    case TimerWaitDue => 2
    case TimerHead => 1
    case TimerExited => 0
  }

  function WorkerRank(pc: WorkerPc): nat {
    match pc
    case WorkerWaiting => 3
    case WorkerBusy(_) => 2
    case WorkerHead => 1
    case WorkerExited => 0
  }

  function WorkersRank(workers: seq<WorkerPc>): nat {
    if workers == [] then 0 else WorkerRank(workers[0]) + WorkersRank(workers[1..])
  }

  /** Bounds the steps that the threads can still take after `stop`. */
  function Measure(s: System): nat {
    TimerRank(s.timer) + WorkersRank(s.workers)
  }

  lemma {:induction false} WorkersRankUpdate(workers: seq<WorkerPc>, w: nat, pc: WorkerPc)
    requires w < |workers|
    ensures WorkersRank(workers[w := pc]) == WorkersRank(workers) - WorkerRank(workers[w]) + WorkerRank(pc)
  {
    if w == 0 {
      assert workers[0 := pc][1..] == workers[1..];
    } else {
      assert workers[w := pc][1..] == workers[1..][w - 1 := pc];
      WorkersRankUpdate(workers[1..], w - 1, pc);
    }
  }

  lemma {:induction false} WorkersRankZero(workers: seq<WorkerPc>)
    ensures WorkersRank(workers) == 0 <==> forall w :: 0 <= w < |workers| ==> workers[w] == WorkerExited
  {
    if workers == [] {
    } else {
      WorkersRankZero(workers[1..]);
      assert forall w :: 1 <= w < |workers| ==> workers[w] == workers[1..][w - 1];
    }
  }

  /** The measure is zero exactly when every thread has left its loop. */
  lemma MeasureZero(s: System)
    ensures Measure(s) == 0 <==>
      s.timer == TimerExited && forall w :: 0 <= w < |s.workers| ==> s.workers[w] == WorkerExited
  {
    WorkersRankZero(s.workers);
  }

  lemma StoppedTimerStep(s: System, l: Label)
    requires !s.sh.isRunning && Enabled(s, l) && ThreadStep(l) && !(l.WorkerLoop? || l.WorkerTake? || l.WorkerFinish?)
    ensures Apply(s, l).workers == s.workers && TimerRank(Apply(s, l).timer) < TimerRank(s.timer)
  {
  }

  lemma StoppedWorkerStep(s: System, l: Label)
    requires !s.sh.isRunning && Enabled(s, l) && (l.WorkerLoop? || l.WorkerTake? || l.WorkerFinish?)
    ensures Apply(s, l).timer == s.timer
    ensures Apply(s, l).workers == s.workers[l.worker := Apply(s, l).workers[l.worker]]
    ensures WorkerRank(Apply(s, l).workers[l.worker]) < WorkerRank(s.workers[l.worker])
  {
  }

  lemma StaysStopped(s: System, l: Label)
    requires !s.sh.isRunning && Enabled(s, l)
    ensures !Apply(s, l).sh.isRunning
  {
  }

  lemma OthersKeepThreads(s: System, l: Label)
    requires Enabled(s, l) && !ThreadStep(l)
    ensures Apply(s, l).timer == s.timer && Apply(s, l).workers == s.workers
  {
  }

  /** Once stopped, every step of a thread brings it nearer to its exit. */
  lemma MeasureStep(s: System, l: Label)
    requires !s.sh.isRunning && Enabled(s, l)
    ensures if ThreadStep(l) then Measure(Apply(s, l)) < Measure(s) else Measure(Apply(s, l)) == Measure(s)
  {
    if !ThreadStep(l) {
      OthersKeepThreads(s, l);
    } else if l.WorkerLoop? || l.WorkerTake? || l.WorkerFinish? {
      StoppedWorkerStep(s, l);
      WorkersRankUpdate(s.workers, l.worker, Apply(s, l).workers[l.worker]);
    } else {
      StoppedTimerStep(s, l);
    }
  }

  function Counts(b: bool): nat {
    if b then 1 else 0
  }

  ghost function ThreadSteps(labels: seq<Label>, i: nat, j: nat): nat
    requires i <= j <= |labels|
  {
    if i == j then 0 else ThreadSteps(labels, i, j - 1) + Counts(ThreadStep(labels[j - 1]))
  }

  /** After `stop` the threads take only finitely many steps, as many as the measure allows. */
  lemma {:induction false} ThreadsWindDown(states: seq<System>, labels: seq<Label>, i: nat, j: nat)
    requires IsRun(states, labels) && i <= j < |states| && !states[i].sh.isRunning
    ensures !states[j].sh.isRunning
    ensures ThreadSteps(labels, i, j) + Measure(states[j]) <= Measure(states[i])
    decreases j
  {
    if i == j {
    } else {
      ThreadsWindDown(states, labels, i, j - 1);
      assert IsStep(states, labels, j - 1);
      MeasureStep(states[j - 1], labels[j - 1]);
      StaysStopped(states[j - 1], labels[j - 1]);
    }
  }

  lemma {:induction false} TopExists(queue: multiset<Task>) returns (top: Task)
    requires queue != multiset{}
    ensures IsTop(queue, top)
    decreases |queue|
  {
    var t :| t in queue;
    var rest := queue - multiset{t};
    if rest == multiset{} {
      top := t;
      assert forall u :: u in queue ==> u == t || u in rest;
    } else {
      var u := TopExists(rest);
      top := if After(u, t) then t else u;
      assert forall v :: v in queue ==> v == t || v in rest;
    }
  }

  /** After `stop` no thread is stuck: one that has not exited has a next step, the callback that a
      busy worker runs being about to return. */
  lemma NotStuck(s: System, w: nat)
    requires !s.sh.isRunning && w < |s.workers|
    ensures s.timer != TimerExited ==> exists l :: TimerStep(l) && Enabled(s, l)
    ensures s.workers[w] != WorkerExited ==>
      Enabled(s, WorkerLoop(w)) || Enabled(s, WorkerTake(w)) || Enabled(s, WorkerFinish(w, true))
  {
    if s.timer != TimerExited {
      var l := NextTimerStep(s);
    }
  }

  predicate TimerStep(l: Label) {
    l.TimerLoop? || l.TimerLock? || l.TimerTaskSeen? || l.TimerResumed? || l.TimerWoken?
  }

  lemma NextTimerStep(s: System) returns (l: Label)
    requires !s.sh.isRunning && s.timer != TimerExited
    ensures TimerStep(l) && Enabled(s, l)
  {
    var top := Task(0, "", 0, 0, 0, 0, None);
    if s.sh.queue != multiset{} {
      top := TopExists(s.sh.queue);
    }
    match s.timer
    case TimerHead => l := TimerLoop;
    case TimerEntering => l := TimerLock(top);
    case TimerWaitTask => l := TimerTaskSeen(top);
    case TimerWaitResume => l := TimerResumed;
    case TimerWaitDue => l := TimerWoken;
  }

  ghost function StartsBy(states: seq<System>, labels: seq<Label>, w: nat, i: nat, j: nat): nat
    requires i <= j <= |labels| <= |states|
  {
    if i == j then 0
    else StartsBy(states, labels, w, i, j - 1) + Counts(labels[j - 1] == WorkerTake(w) && states[j - 1].sh.ready != [])
  }

  ghost function PopsIn(states: seq<System>, labels: seq<Label>, i: nat, j: nat): nat
    requires i <= j <= |labels| <= |states|
  {
    if i == j then 0 else PopsIn(states, labels, i, j - 1) + Counts(Pops(states[j - 1], labels[j - 1]))
  }

  function StartsLeft(s: System, w: nat): nat {
    Counts(w < |s.workers| && s.workers[w] == WorkerWaiting)
  }

  function PopsLeft(s: System): nat {
    Counts(s.timer == TimerEntering)
  }

  lemma StartsLeftStep(s: System, l: Label, w: nat)
    requires !s.sh.isRunning && Enabled(s, l)
    ensures Counts(l == WorkerTake(w) && s.sh.ready != []) + StartsLeft(Apply(s, l), w) <= StartsLeft(s, w)
  {
    if !ThreadStep(l) {
      OthersKeepThreads(s, l);
    } else if l.WorkerLoop? || l.WorkerTake? || l.WorkerFinish? {
      StoppedWorkerStep(s, l);
    } else {
      StoppedTimerStep(s, l);
    }
  }

  lemma PopsLeftStep(s: System, l: Label)
    requires !s.sh.isRunning && Enabled(s, l)
    ensures Counts(Pops(s, l)) + PopsLeft(Apply(s, l)) <= PopsLeft(s)
  {
    if !ThreadStep(l) {
      OthersKeepThreads(s, l);
    } else if l.WorkerLoop? || l.WorkerTake? || l.WorkerFinish? {
      StoppedWorkerStep(s, l);
    }
  }

  lemma {:induction false} LastStartsAndPops(states: seq<System>, labels: seq<Label>, w: nat, i: nat, j: nat)
    requires IsRun(states, labels) && i <= j < |states| && !states[i].sh.isRunning
    ensures !states[j].sh.isRunning
    ensures StartsBy(states, labels, w, i, j) + StartsLeft(states[j], w) <= StartsLeft(states[i], w)
    ensures PopsIn(states, labels, i, j) + PopsLeft(states[j]) <= PopsLeft(states[i])
    decreases j
  {
    if i == j {
    } else {
      LastStartsAndPops(states, labels, w, i, j - 1);
      assert IsStep(states, labels, j - 1);
      StartsLeftStep(states[j - 1], labels[j - 1], w);
      PopsLeftStep(states[j - 1], labels[j - 1]);
      StaysStopped(states[j - 1], labels[j - 1]);
    }
  }

  /** After `stop` each worker starts at most one more callback and the timer pops at most one more
      task, whatever is left in the queues. */
  lemma StopEffect(states: seq<System>, labels: seq<Label>, w: nat, i: nat, j: nat)
    requires IsRun(states, labels) && i < j < |states| && labels[i] == CallStop
    ensures StartsBy(states, labels, w, i + 1, j) <= 1
    ensures PopsIn(states, labels, i + 1, j) <= 1
    ensures ThreadSteps(labels, i + 1, j) + Measure(states[j]) <= Measure(states[i + 1])
  {
    assert IsStep(states, labels, i);
    LastStartsAndPops(states, labels, w, i + 1, j);
    ThreadsWindDown(states, labels, i + 1, j);
  }

  /** A `schedule` that reaches the lock after `stop` adds nothing anywhere, and its id is lost. */
  lemma LateSchedule(s: System, c: nat)
    requires Inv(s) && !s.sh.isRunning && c in s.callers
    ensures Apply(s, Lock(c)).sh == s.sh
    ensures At(Apply(s, Lock(c)).hist, s.callers[c].id, Rejected)
  {
  }
}
