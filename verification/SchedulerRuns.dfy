/** What holds over every run of the scheduler, however its threads interleave. */
module SchedulerRuns {
  import opened SchedulerShared
  import opened SchedulerSystem
  import opened SchedulerInvariant

  ghost predicate IsRun(states: seq<System>, labels: seq<Label>) {
    && |states| == |labels| + 1
    && (exists threads :: states[0] == Initial(threads))
    && (forall i :: 0 <= i < |labels| ==> IsStep(states, labels, i))
  }

  ghost predicate IsStep(states: seq<System>, labels: seq<Label>, i: nat)
    requires i < |labels| < |states|
  {
    Enabled(states[i], labels[i]) && states[i + 1] == Apply(states[i], labels[i])
  }

  lemma {:induction false} RunInv(states: seq<System>, labels: seq<Label>, i: nat)
    requires IsRun(states, labels) && i < |states|
    ensures Inv(states[i])
    decreases i
  {
    if i == 0 {
      var threads :| states[0] == Initial(threads);
      InitialInv(threads);
    } else {
      RunInv(states, labels, i - 1);
      assert IsStep(states, labels, i - 1);
      StepKeepsInv(states[i - 1], labels[i - 1]);
    }
  }

  // ----- the events in the life of a task -----

  predicate Locks(s: System, l: Label, id: TaskId) {
    l.Lock? && l.caller in s.callers && s.callers[l.caller].id == id
  }

  predicate PopsId(s: System, l: Label, id: TaskId) {
    Pops(s, l) && l.top.id == id
  }

  predicate Drops(s: System, l: Label, id: TaskId) {
    PopsId(s, l, id) && id in s.sh.cancelled
  }

  predicate Starts(s: System, l: Label, id: TaskId) {
    l.WorkerTake? && s.sh.ready != [] && s.sh.ready[0].id == id
  }

  predicate Finishes(s: System, l: Label, id: TaskId) {
    l.WorkerFinish? && l.worker < |s.workers| && s.workers[l.worker].WorkerBusy? && s.workers[l.worker].task.id == id
  }

  predicate Renews(s: System, l: Label) {
    && l.WorkerFinish? && l.worker < |s.workers| && s.workers[l.worker].WorkerBusy?
    && Reschedules(s.sh, s.workers[l.worker].task, l.goOn)
  }

  function PlaceAfter(s: System, l: Label, id: TaskId, p: Place): Place {
    if Locks(s, l, id) then (if s.sh.isRunning then Queued else Rejected)
    else if PopsId(s, l, id) then (if id in s.sh.cancelled then Dropped else Ready)
    else if Starts(s, l, id) then Held(l.worker)
    else if Finishes(s, l, id) then Finished
    else p
  }

  ghost predicate Drawn(s: System, id: TaskId) {
    id in s.hist.place && id in s.hist.tasks && id in s.hist.origin && id != s.sh.nextId
  }

  lemma DrawnIds(s: System)
    requires IdsInv(s.hist, s.sh.nextId)
    ensures forall id :: id in s.hist.place ==> Drawn(s, id)
    ensures s.sh.nextId !in s.hist.place
  {
  }

  ghost predicate MovedTo(h: History, h': History, id: TaskId, p: Place)
    requires id in h.tasks && id in h.origin
  {
    && id in h'.place && h'.place[id] == p
    && id in h'.tasks && h'.tasks[id] == h.tasks[id]
    && id in h'.origin && h'.origin[id] == h.origin[id]
  }

  /** An id once drawn keeps its task and its chain, and changes place by these events only. */
  lemma PlaceFollows(s: System, l: Label, id: TaskId)
    requires Enabled(s, l) && Drawn(s, id)
    ensures MovedTo(s.hist, Apply(s, l).hist, id, PlaceAfter(s, l, id, s.hist.place[id]))
  {
    if l.TimerLock? || l.TimerTaskSeen? {
      TimerFollows(s, l, id);
    } else if l.WorkerFinish? {
      FinishFollows(s, l, id);
    } else if l.WorkerTake? {
      TakeFollows(s, l, id);
    } else if l.Draw? || l.Lock? {
      CallerFollows(s, l, id);
    } else {
      OtherHistory(s, l);
    }
  }

  lemma TimerFollows(s: System, l: Label, id: TaskId)
    requires Enabled(s, l) && Drawn(s, id) && (l.TimerLock? || l.TimerTaskSeen?)
    ensures MovedTo(s.hist, Apply(s, l).hist, id, PlaceAfter(s, l, id, s.hist.place[id]))
  {
    TimerHistory(s, l);
    PopFollows(s, l, id);
  }

  lemma PopFollows(s: System, l: Label, id: TaskId)
    requires Drawn(s, id) && (l.TimerLock? || l.TimerTaskSeen?)
    ensures var moved := Move(s.hist, l.top.id, if l.top.id in s.sh.cancelled then Dropped else Ready);
            MovedTo(s.hist, if Pops(s, l) then moved else s.hist, id, PlaceAfter(s, l, id, s.hist.place[id]))
  {
  }

  lemma FinishFollows(s: System, l: Label, id: TaskId)
    requires Enabled(s, l) && Drawn(s, id) && l.WorkerFinish?
    ensures MovedTo(s.hist, Apply(s, l).hist, id, PlaceAfter(s, l, id, s.hist.place[id]))
  {
  }

  lemma TakeFollows(s: System, l: Label, id: TaskId)
    requires Enabled(s, l) && Drawn(s, id) && l.WorkerTake?
    ensures MovedTo(s.hist, Apply(s, l).hist, id, PlaceAfter(s, l, id, s.hist.place[id]))
  {
  }

  lemma CallerFollows(s: System, l: Label, id: TaskId)
    requires Enabled(s, l) && Drawn(s, id) && (l.Draw? || l.Lock?)
    ensures MovedTo(s.hist, Apply(s, l).hist, id, PlaceAfter(s, l, id, s.hist.place[id]))
  {
  }

  lemma TimerHistory(s: System, l: Label)
    requires Enabled(s, l) && (l.TimerLock? || l.TimerTaskSeen?)
    ensures Apply(s, l).hist ==
      if Pops(s, l) then Move(s.hist, l.top.id, if l.top.id in s.sh.cancelled then Dropped else Ready) else s.hist
    ensures Apply(s, l).sh == if Pops(s, l) then Pop(s.sh, l.top) else s.sh
  {
  }

  predicate ChangesHistory(l: Label) {
    l.Draw? || l.Lock? || l.TimerLock? || l.TimerTaskSeen? || l.WorkerTake? || l.WorkerFinish?
  }

  lemma OtherHistory(s: System, l: Label)
    requires Enabled(s, l) && !ChangesHistory(l)
    ensures Apply(s, l).hist == s.hist && Apply(s, l).sh.ready == s.sh.ready
  {
  }

  /** Ids appear one at a time: drawn by a caller, or by a worker that renews a periodic task. */
  lemma NewIds(s: System, l: Label, id: TaskId)
    requires Enabled(s, l) && id !in s.hist.place && id in Apply(s, l).hist.place
    requires SubjectDrawn(s, l)
    ensures id == s.sh.nextId
    ensures l.Draw? || Renews(s, l)
    ensures var h' := Apply(s, l).hist;
      && id in h'.origin && id in h'.tasks
      && (l.Draw? ==> h'.origin[id] == id)
      && (Renews(s, l) ==>
          var t := s.workers[l.worker].task;
          h'.origin[id] == OriginOf(s.hist, t.id) && h'.tasks[id] == NextOccurrence(s.sh, t, s.now))
  {
    if l.TimerLock? || l.TimerTaskSeen? {
      TimerHistory(s, l);
    } else if !ChangesHistory(l) {
      OtherHistory(s, l);
    }
  }

  /** The place that each event needs its task to be in. */
  ghost predicate InOrder(s: System, l: Label, id: TaskId) {
    && (Locks(s, l, id) ==> At(s.hist, id, Flying(l.caller)))
    && (PopsId(s, l, id) ==> At(s.hist, id, Queued))
    && (Starts(s, l, id) ==> At(s.hist, id, Ready))
    && (Finishes(s, l, id) ==> At(s.hist, id, Held(l.worker)))
  }

  /** Each event finds its task in the one place from which it can happen. */
  lemma EventPlaces(s: System, l: Label, id: TaskId)
    requires PlacesInv(s) && Enabled(s, l)
    ensures InOrder(s, l, id)
  {
    if Locks(s, l, id) {
      assert Known(s.hist, s.callers[l.caller], Flying(l.caller));
    }
    if PopsId(s, l, id) {
      assert Known(s.hist, l.top, Queued);
    }
    if Starts(s, l, id) {
      assert s.sh.ready[0] in s.sh.ready;
    }
    if Finishes(s, l, id) {
      assert Known(s.hist, s.workers[l.worker].task, Held(l.worker));
    }
  }

  /** The task that a step is about has been drawn. */
  ghost predicate SubjectDrawn(s: System, l: Label) {
    && (l.Lock? && l.caller in s.callers ==> s.callers[l.caller].id in s.hist.place)
    && (Pops(s, l) ==> l.top.id in s.hist.place)
    && (l.WorkerTake? && s.sh.ready != [] ==> s.sh.ready[0].id in s.hist.place)
    && (l.WorkerFinish? && l.worker < |s.workers| && s.workers[l.worker].WorkerBusy? ==>
        s.workers[l.worker].task.id in s.hist.place)
  }

  lemma SubjectIsDrawn(s: System, l: Label)
    requires PlacesInv(s) && Enabled(s, l)
    ensures SubjectDrawn(s, l)
  {
    if l.Lock? {
      EventPlaces(s, l, s.callers[l.caller].id);
    } else if Pops(s, l) {
      EventPlaces(s, l, l.top.id);
    } else if l.WorkerTake? && s.sh.ready != [] {
      EventPlaces(s, l, s.sh.ready[0].id);
    } else if l.WorkerFinish? {
      EventPlaces(s, l, s.workers[l.worker].task.id);
    }
  }

  // ----- one place for every id, and one start at most -----

  /** In every reachable state the containers say where each accepted task is; having one place, it
      is in one of them only, or over. */
  lemma OnePlace(s: System, id: TaskId)
    requires PlacesInv(s) && id in s.hist.place
    ensures (exists t :: t in s.sh.queue && t.id == id) <==> s.hist.place[id] == Queued
    ensures (exists t :: t in s.sh.ready && t.id == id) <==> s.hist.place[id] == Ready
    ensures (exists w: nat :: IsHeld(s, w, id)) <==> s.hist.place[id].Held?
  {
    OnePlaceQueue(s.hist, s.sh.queue, s.sh.nextId, id);
    OnePlaceReady(s.hist, s.sh.ready, s.sh.nextId, id);
    OnePlaceHeld(s, id);
  }

  ghost predicate IsHeld(s: System, w: nat, id: TaskId) {
    w < |s.workers| && s.workers[w].WorkerBusy? && s.workers[w].task.id == id
  }

  lemma OnePlaceQueue(h: History, queue: multiset<Task>, nextId: TaskId, id: TaskId)
    requires IdsInv(h, nextId) && QueueInv(h, queue) && id in h.place
    ensures (exists t :: t in queue && t.id == id) <==> h.place[id] == Queued
  {
    var t := h.tasks[id];
    assert h.place[id] == Queued ==> Known(h, t, Queued);
    assert forall u :: u in queue ==> Known(h, u, Queued);
  }

  lemma OnePlaceReady(h: History, ready: seq<Task>, nextId: TaskId, id: TaskId)
    requires IdsInv(h, nextId) && ReadyInv(h, ready) && id in h.place
    ensures (exists t :: t in ready && t.id == id) <==> h.place[id] == Ready
  {
    var t := h.tasks[id];
    assert h.place[id] == Ready ==> Known(h, t, Ready);
    assert forall u :: u in ready ==> Known(h, u, Ready);
  }

  lemma OnePlaceHeld(s: System, id: TaskId)
    requires IdsInv(s.hist, s.sh.nextId) && WorkersInv(s.hist, s.workers) && id in s.hist.place
    ensures (exists w: nat :: IsHeld(s, w, id)) <==> s.hist.place[id].Held?
  {
    var p := s.hist.place[id];
    if p.Held? {
      assert Known(s.hist, s.hist.tasks[id], Held(p.worker));
      assert IsHeld(s, p.worker, id);
    }
    forall w: nat | IsHeld(s, w, id)
      ensures p.Held?
    {
      assert Known(s.hist, s.workers[w].task, Held(w));
    }
  }

  function PlaceRank(p: Place): nat {
    match p
    case Flying(_) => 1
    case Queued => 2
    case Ready => 3
    case Held(_) => 4
    case _ => 5
  }

  function Rank(h: History, id: TaskId): nat {
    if id in h.place then PlaceRank(h.place[id]) else 0
  }

  lemma PlaceAfterRank(s: System, l: Label, id: TaskId)
    requires InOrder(s, l, id) && id in s.hist.place
    ensures PlaceRank(s.hist.place[id]) <= PlaceRank(PlaceAfter(s, l, id, s.hist.place[id]))
    ensures Starts(s, l, id) ==>
      s.hist.place[id] == Ready && PlaceAfter(s, l, id, s.hist.place[id]) == Held(l.worker)
  {
  }

  lemma RankStep(s: System, l: Label, id: TaskId)
    requires Enabled(s, l) && InOrder(s, l, id) && (id in s.hist.place ==> Drawn(s, id))
    ensures Rank(s.hist, id) <= Rank(Apply(s, l).hist, id)
    ensures Starts(s, l, id) ==> Rank(s.hist, id) == 3 && Rank(Apply(s, l).hist, id) == 4
  {
    if id in s.hist.place {
      PlaceFollows(s, l, id);
      PlaceAfterRank(s, l, id);
    }
  }

  lemma RunRankStep(states: seq<System>, labels: seq<Label>, id: TaskId, i: nat)
    requires IsRun(states, labels) && i < |labels|
    ensures Rank(states[i].hist, id) <= Rank(states[i + 1].hist, id)
    ensures Starts(states[i], labels[i], id) ==> Rank(states[i].hist, id) == 3 && Rank(states[i + 1].hist, id) == 4
  {
    RunInv(states, labels, i);
    assert IsStep(states, labels, i);
    EventPlaces(states[i], labels[i], id);
    DrawnIds(states[i]);
    RankStep(states[i], labels[i], id);
  }

  /** Life goes one way: drawn, queued, ready, held, over. */
  lemma {:induction false} RankGrows(states: seq<System>, labels: seq<Label>, id: TaskId, i: nat, j: nat)
    requires IsRun(states, labels) && i <= j < |states|
    ensures Rank(states[i].hist, id) <= Rank(states[j].hist, id)
    decreases j
  {
    if i == j {
    } else {
      RankGrows(states, labels, id, i, j - 1);
      RunRankStep(states, labels, id, j - 1);
    }
  }

  /** No task is started twice in any run. */
  lemma StartsOnce(states: seq<System>, labels: seq<Label>, id: TaskId, i: nat, j: nat)
    requires IsRun(states, labels) && i < j < |labels|
    requires Starts(states[i], labels[i], id)
    ensures !Starts(states[j], labels[j], id)
  {
    RunRankStep(states, labels, id, i);
    RankGrows(states, labels, id, i + 1, j);
    RunRankStep(states, labels, id, j);
  }

  // ----- periodic chains -----

  lemma StartedIsDue(s: System, l: Label, id: TaskId)
    requires Inv(s) && Enabled(s, l) && Starts(s, l, id)
    ensures id in s.hist.tasks && s.hist.tasks[id] == s.sh.ready[0]
    ensures s.sh.ready[0].executeAt <= s.now
  {
    assert s.sh.ready[0] in s.sh.ready && Known(s.hist, s.sh.ready[0], Ready);
  }

  /** In no run does an occurrence start before its time. */
  lemma StartsDue(states: seq<System>, labels: seq<Label>, j: nat, id: TaskId)
    requires IsRun(states, labels) && j < |labels| && Starts(states[j], labels[j], id)
    ensures id in states[j].hist.tasks && states[j].hist.tasks[id].executeAt <= states[j].now
  {
    RunInv(states, labels, j);
    assert IsStep(states, labels, j);
    StartedIsDue(states[j], labels[j], id);
  }

  lemma OneActiveOccurrence(h: History, a: TaskId, b: TaskId, origin: TaskId)
    requires ChainInv(h) && ActiveIn(h, a, origin) && ActiveIn(h, b, origin)
    ensures a == b
  {
  }

  /** In no state of any run does a chain have two occurrences that are not over. */
  lemma ChainsDoNotOverlap(states: seq<System>, labels: seq<Label>, i: nat, a: TaskId, b: TaskId, origin: TaskId)
    requires IsRun(states, labels) && i < |states|
    requires ActiveIn(states[i].hist, a, origin) && ActiveIn(states[i].hist, b, origin)
    ensures a == b
  {
    RunInv(states, labels, i);
    OneActiveOccurrence(states[i].hist, a, b, origin);
  }

  /** Every occurrence of the chain that is not over waits for `due`. */
  ghost predicate ChainWaits(h: History, origin: TaskId, due: Time, interval: int) {
    && origin in h.tasks && h.tasks[origin].interval == interval
    && (forall id :: ActiveIn(h, id, origin) && id in h.tasks ==> h.tasks[id].executeAt >= due)
  }

  lemma TickNeverBack(s: System, l: Label)
    requires Enabled(s, l)
    ensures s.now <= Apply(s, l).now
  {
  }

  lemma OriginHasTask(s: System, id: TaskId)
    requires Inv(s) && id in s.hist.origin
    ensures s.hist.origin[id] in s.hist.tasks && id in s.hist.tasks
    ensures SameChain(s.hist.tasks[id], s.hist.tasks[s.hist.origin[id]])
    ensures s.hist.origin[id] < s.sh.nextId && s.sh.nextId !in s.hist.place
  {
    assert InChain(s.hist, id, s.hist.origin[id]);
  }

  lemma StaysActiveIn(s: System, l: Label, id: TaskId, origin: TaskId)
    requires Enabled(s, l) && Drawn(s, id) && InOrder(s, l, id)
    requires ActiveIn(Apply(s, l).hist, id, origin)
    ensures ActiveIn(s.hist, id, origin) && !Finishes(s, l, id)
    ensures id in Apply(s, l).hist.tasks && Apply(s, l).hist.tasks[id] == s.hist.tasks[id]
  {
    PlaceFollows(s, l, id);
    ActivePlace(s, l, id);
  }

  lemma ActivePlace(s: System, l: Label, id: TaskId)
    requires InOrder(s, l, id) && id in s.hist.place && Active(PlaceAfter(s, l, id, s.hist.place[id]))
    ensures Active(s.hist.place[id]) && !Finishes(s, l, id)
  {
  }

  /** A newcomer to an existing chain is the renewal of the occurrence that finishes. */
  lemma NewcomerIsRenewal(s: System, l: Label, id: TaskId, origin: TaskId)
    requires Inv(s) && Enabled(s, l) && ActiveIn(Apply(s, l).hist, id, origin)
    requires id !in s.hist.place && origin in s.hist.tasks
    ensures Renews(s, l) && ActiveIn(s.hist, s.workers[l.worker].task.id, origin)
    ensures id in Apply(s, l).hist.tasks
    ensures Apply(s, l).hist.tasks[id].executeAt == s.now + s.hist.tasks[origin].interval
  {
    SubjectIsDrawn(s, l);
    NewcomerFromFinish(s, l, id, origin);
    RenewedIsActive(s, l.worker);
    assert ActiveIn(s.hist, s.workers[l.worker].task.id, origin);
  }

  lemma NewcomerFromFinish(s: System, l: Label, id: TaskId, origin: TaskId)
    requires Enabled(s, l) && ActiveIn(Apply(s, l).hist, id, origin)
    requires IdsInv(s.hist, s.sh.nextId) && id !in s.hist.place && origin in s.hist.tasks
    requires SubjectDrawn(s, l)
    ensures Renews(s, l) && OriginOf(s.hist, s.workers[l.worker].task.id) == origin
    ensures id in Apply(s, l).hist.tasks
    ensures Apply(s, l).hist.tasks[id].executeAt == s.now + s.workers[l.worker].task.interval
  {
    NewIds(s, l, id);
  }

  lemma RenewedIsActive(s: System, w: nat)
    requires Inv(s) && w < |s.workers| && s.workers[w].WorkerBusy?
    ensures var t := s.workers[w].task;
      && t.id in s.hist.origin && ActiveIn(s.hist, t.id, s.hist.origin[t.id])
      && s.hist.origin[t.id] in s.hist.tasks && t.interval == s.hist.tasks[s.hist.origin[t.id]].interval
  {
    assert Known(s.hist, s.workers[w].task, Held(w));
    OriginHasTask(s, s.workers[w].task.id);
  }

  lemma ChainWaitsStep(s: System, l: Label, origin: TaskId, due: Time, interval: int)
    requires Inv(s) && Enabled(s, l) && ChainWaits(s.hist, origin, due, interval)
    requires due <= s.now + interval
    ensures ChainWaits(Apply(s, l).hist, origin, due, interval)
  {
    var h' := Apply(s, l).hist;
    DrawnIds(s);
    PlaceFollows(s, l, origin);
    forall id | ActiveIn(h', id, origin) && id in h'.tasks
      ensures h'.tasks[id].executeAt >= due
    {
      if id in s.hist.place {
        EventPlaces(s, l, id);
        StaysActiveIn(s, l, id, origin);
      } else {
        NewcomerIsRenewal(s, l, id, origin);
      }
    }
  }

  lemma FinishMakesChainWait(s: System, l: Label, id: TaskId)
    requires Inv(s) && Enabled(s, l) && Finishes(s, l, id)
    ensures id in s.hist.origin && id in s.hist.tasks
    ensures var interval := s.hist.tasks[id].interval;
            ChainWaits(Apply(s, l).hist, s.hist.origin[id], s.now + interval, interval)
  {
    var h', t := Apply(s, l).hist, s.workers[l.worker].task;
    assert Known(s.hist, t, Held(l.worker));
    var origin := s.hist.origin[id];
    OriginHasTask(s, id);
    DrawnIds(s);
    PlaceFollows(s, l, origin);
    assert ActiveIn(s.hist, id, origin);
    forall k | ActiveIn(h', k, origin) && k in h'.tasks
      ensures h'.tasks[k].executeAt >= s.now + t.interval
    {
      if k in s.hist.place {
        EventPlaces(s, l, k);
        StaysActiveIn(s, l, k, origin);
      } else {
        NewcomerIsRenewal(s, l, k, origin);
      }
    }
  }

  lemma {:induction false} ChainWaitsOn(states: seq<System>, labels: seq<Label>, origin: TaskId, due: Time,
                                        interval: int, i: nat, j: nat)
    requires IsRun(states, labels) && i <= j < |states|
    requires ChainWaits(states[i].hist, origin, due, interval) && due <= states[i].now + interval
    ensures ChainWaits(states[j].hist, origin, due, interval) && states[i].now <= states[j].now
    decreases j
  {
    if i == j {
    } else {
      ChainWaitsOn(states, labels, origin, due, interval, i, j - 1);
      RunInv(states, labels, j - 1);
      assert IsStep(states, labels, j - 1);
      ChainWaitsStep(states[j - 1], labels[j - 1], origin, due, interval);
      TickNeverBack(states[j - 1], labels[j - 1]);
    }
  }

  /** Chains keep their spacing: in every run, with any number of workers, an occurrence starts no
      sooner than one interval after an earlier occurrence of its chain has finished. */
  lemma ChainSpacing(states: seq<System>, labels: seq<Label>, i: nat, j: nat, a: TaskId, b: TaskId)
    requires IsRun(states, labels) && i < j < |labels|
    requires Finishes(states[i], labels[i], a) && Starts(states[j], labels[j], b)
    requires b in states[j].hist.origin && a in states[i].hist.origin
    requires states[j].hist.origin[b] == states[i].hist.origin[a]
    ensures a in states[i].hist.tasks
    ensures states[j].now >= states[i].now + states[i].hist.tasks[a].interval
  {
    RunFinishWaits(states, labels, i, a);
    var origin, interval := states[i].hist.origin[a], states[i].hist.tasks[a].interval;
    ChainWaitsOn(states, labels, origin, states[i].now + interval, interval, i + 1, j);
    RunStartWaited(states, labels, j, b, origin, states[i].now + interval, interval);
  }

  lemma RunFinishWaits(states: seq<System>, labels: seq<Label>, i: nat, id: TaskId)
    requires IsRun(states, labels) && i < |labels| && Finishes(states[i], labels[i], id)
    ensures id in states[i].hist.origin && id in states[i].hist.tasks && states[i].now <= states[i + 1].now
    ensures var interval := states[i].hist.tasks[id].interval;
            ChainWaits(states[i + 1].hist, states[i].hist.origin[id], states[i].now + interval, interval)
  {
    RunInv(states, labels, i);
    assert IsStep(states, labels, i);
    FinishMakesChainWait(states[i], labels[i], id);
    TickNeverBack(states[i], labels[i]);
  }

  lemma RunStartWaited(states: seq<System>, labels: seq<Label>, j: nat, id: TaskId, origin: TaskId, due: Time,
                       interval: int)
    requires IsRun(states, labels) && j < |labels| && Starts(states[j], labels[j], id)
    requires id in states[j].hist.origin && states[j].hist.origin[id] == origin
    requires ChainWaits(states[j].hist, origin, due, interval)
    ensures states[j].now >= due
  {
    RunInv(states, labels, j);
    assert IsStep(states, labels, j);
    StartedIsDue(states[j], labels[j], id);
    EventPlaces(states[j], labels[j], id);
    assert ActiveIn(states[j].hist, id, origin);
  }

  // ----- dispatch order -----

  ghost predicate ReadyBefore(ready: seq<Task>, a: Task, b: Task) {
    exists i, j :: 0 <= i < j < |ready| && ready[i] == a && ready[j] == b
  }

  /** `a` has neither started nor been dropped, and stands between `b` and the workers. */
  ghost predicate Ahead(s: System, a: Task, b: Task) {
    || (Known(s.hist, a, Queued) && Known(s.hist, b, Queued))
    || (Known(s.hist, a, Ready) && (Known(s.hist, b, Queued) || Known(s.hist, b, Dropped)))
    || (Known(s.hist, a, Ready) && Known(s.hist, b, Ready) && ReadyBefore(s.sh.ready, a, b))
  }

  lemma ReadyBeforeKept(s: System, l: Label, a: Task, b: Task)
    requires Enabled(s, l) && ReadyBefore(s.sh.ready, a, b) && !Starts(s, l, a.id)
    ensures ReadyBefore(Apply(s, l).sh.ready, a, b)
  {
    ReadyAfter(s, l);
    var ready, ready' := s.sh.ready, Apply(s, l).sh.ready;
    if l.WorkerTake? {
      ReadyBeforeInRest(ready, a, b);
    } else {
      ReadyBeforeInLonger(ready, ready', a, b);
    }
  }

  /** Workers take from the front of the ready queue, and only the timer puts something in, at the end. */
  lemma ReadyAfter(s: System, l: Label)
    requires Enabled(s, l)
    ensures Apply(s, l).sh.ready == if l.WorkerTake? && s.sh.ready != [] then s.sh.ready[1..]
                                    else if Pops(s, l) && l.top.id !in s.sh.cancelled then s.sh.ready + [l.top]
                                    else s.sh.ready
  {
    match l
    case TimerLock(_) => TimerHistory(s, l);
    case TimerTaskSeen(_) => TimerHistory(s, l);
    case WorkerTake(_) =>
    case WorkerFinish(_, _) =>
    case Draw(_, _, _) =>
    case Lock(_) =>
    case _ => OtherHistory(s, l);
  }

  lemma ReadyBeforeInRest(ready: seq<Task>, a: Task, b: Task)
    requires ready != [] && ReadyBefore(ready, a, b) && ready[0] != a
    ensures ReadyBefore(ready[1..], a, b)
  {
    var i, j :| 0 <= i < j < |ready| && ready[i] == a && ready[j] == b;
    assert ready[1..][i - 1] == a && ready[1..][j - 1] == b;
  }

  lemma ReadyBeforeInLonger(ready: seq<Task>, longer: seq<Task>, a: Task, b: Task)
    requires ready <= longer && ReadyBefore(ready, a, b)
    ensures ReadyBefore(longer, a, b)
  {
    var i, j :| 0 <= i < j < |ready| && ready[i] == a && ready[j] == b;
    assert longer[i] == a && longer[j] == b;
  }

  lemma PoppedGoesLast(s: System, l: Label, a: Task, b: Task)
    requires Enabled(s, l) && a in s.sh.ready && Pops(s, l) && l.top == b && b.id !in s.sh.cancelled
    ensures ReadyBefore(Apply(s, l).sh.ready, a, b)
  {
    ReadyAfter(s, l);
    var ready, ready' := s.sh.ready, Apply(s, l).sh.ready;
    assert ready' == ready + [b];
    var i :| 0 <= i < |ready| && ready[i] == a;
    assert ready'[i] == a && ready'[|ready|] == b;
  }

  lemma AheadStep(s: System, l: Label, a: Task, b: Task)
    requires Inv(s) && Enabled(s, l) && Ahead(s, a, b) && After(b, a)
    ensures !Starts(s, l, b.id)
    ensures Starts(s, l, a.id) || Drops(s, l, a.id) || Ahead(Apply(s, l), a, b)
  {
    EventPlaces(s, l, a.id);
    EventPlaces(s, l, b.id);
    DrawnIds(s);
    if Known(s.hist, a, Queued) {
      assert a in s.sh.queue;
      AheadQueued(s, l, a, b);
    } else {
      assert a in s.sh.ready;
      assert PopsId(s, l, b.id) ==> Known(s.hist, l.top, Queued);
      if Starts(s, l, b.id) {
        FirstIsNotBehind(s, a, b);
      }
      if !Starts(s, l, a.id) {
        AheadReady(s, l, a, b);
      }
    }
  }

  lemma AheadQueued(s: System, l: Label, a: Task, b: Task)
    requires Enabled(s, l) && InOrder(s, l, a.id) && InOrder(s, l, b.id) && Drawn(s, a.id) && Drawn(s, b.id)
    requires Known(s.hist, a, Queued) && Known(s.hist, b, Queued) && After(b, a)
    requires a in s.sh.queue && (PopsId(s, l, b.id) ==> l.top == b)
    ensures !Starts(s, l, b.id)
    ensures Drops(s, l, a.id) || Ahead(Apply(s, l), a, b)
  {
    PlaceFollows(s, l, a.id);
    PlaceFollows(s, l, b.id);
  }

  lemma AheadReady(s: System, l: Label, a: Task, b: Task)
    requires Enabled(s, l) && InOrder(s, l, a.id) && InOrder(s, l, b.id) && Drawn(s, a.id) && Drawn(s, b.id)
    requires Known(s.hist, a, Ready) && Ahead(s, a, b) && a in s.sh.ready
    requires PopsId(s, l, b.id) ==> l.top == b
    requires !Starts(s, l, a.id) && !Starts(s, l, b.id)
    ensures Ahead(Apply(s, l), a, b)
  {
    PlaceFollows(s, l, a.id);
    PlaceFollows(s, l, b.id);
    if Known(s.hist, b, Ready) {
      ReadyBeforeKept(s, l, a, b);
    } else if PopsId(s, l, b.id) && b.id !in s.sh.cancelled {
      PoppedGoesLast(s, l, a, b);
    }
  }

  lemma FirstIsNotBehind(s: System, a: Task, b: Task)
    requires ReadyInv(s.hist, s.sh.ready) && s.sh.ready != []
    requires ReadyBefore(s.sh.ready, a, b)
    ensures s.sh.ready[0].id != b.id
  {
  }

  lemma {:induction false} AheadUntilGone(states: seq<System>, labels: seq<Label>, a: Task, b: Task, i: nat, j: nat)
    requires IsRun(states, labels) && i <= j < |states|
    requires Ahead(states[i], a, b) && After(b, a)
    requires forall k :: i <= k < j ==> !Starts(states[k], labels[k], a.id) && !Drops(states[k], labels[k], a.id)
    ensures Ahead(states[j], a, b)
    decreases j
  {
    if i == j {
    } else {
      AheadUntilGone(states, labels, a, b, i, j - 1);
      RunInv(states, labels, j - 1);
      assert IsStep(states, labels, j - 1);
      AheadStep(states[j - 1], labels[j - 1], a, b);
    }
  }

  /** Dispatch order: of two tasks that are ever queued together, the strictly later one starts only
      after the earlier one has started or been dropped as cancelled. */
  lemma DispatchOrder(states: seq<System>, labels: seq<Label>, a: Task, b: Task, i: nat, j: nat)
    requires IsRun(states, labels) && i <= j < |labels|
    requires a in states[i].sh.queue && b in states[i].sh.queue
    requires a.executeAt < b.executeAt || (a.executeAt == b.executeAt && a.priority < b.priority)
    requires Starts(states[j], labels[j], b.id)
    ensures exists k :: i <= k < j && (Starts(states[k], labels[k], a.id) || Drops(states[k], labels[k], a.id))
  {
    if forall k :: i <= k < j ==> !Starts(states[k], labels[k], a.id) && !Drops(states[k], labels[k], a.id) {
      RunInv(states, labels, i);
      RunInv(states, labels, j);
      assert Known(states[i].hist, a, Queued) && Known(states[i].hist, b, Queued);
      AheadUntilGone(states, labels, a, b, i, j);
      assert IsStep(states, labels, j);
      AheadStep(states[j], labels[j], a, b);
    }
  }
}
