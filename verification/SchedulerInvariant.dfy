/** The invariant that every step of the scheduler keeps. */
module SchedulerInvariant {
  import opened SchedulerShared
  import opened SchedulerSystem

  // ----- the global invariant -----

  predicate Waiting(p: Place) {
    p == Queued || p == Ready
  }

  /** Inside the scheduler: queued, ready or held by a worker. */
  predicate Live(p: Place) {
    Waiting(p) || p.Held?
  }

  /** Drawn and not yet over. */
  predicate Active(p: Place) {
    Live(p) || p.Flying?
  }

  ghost predicate At(h: History, id: TaskId, p: Place) {
    id in h.place && h.place[id] == p
  }

  ghost predicate Known(h: History, t: Task, p: Place) {
    t.id in h.tasks && h.tasks[t.id] == t && At(h, t.id, p)
  }

  /** Ids are unique, below the counter and never `INVALID_TASK_ID`. */
  ghost predicate IdsInv(h: History, nextId: TaskId) {
    && h.tasks.Keys == h.place.Keys == h.origin.Keys
    && nextId >= 1
    && (forall id :: id in h.tasks ==> 1 <= id < nextId && h.tasks[id].id == id)
  }

  ghost predicate QueueInv(h: History, queue: multiset<Task>) {
    forall t :: (t in queue <==> Known(h, t, Queued)) && queue[t] <= 1
  }

  ghost predicate ReadyInv(h: History, ready: seq<Task>) {
    && (forall t :: t in ready <==> Known(h, t, Ready))
    && (forall i, j :: 0 <= i < j < |ready| ==> ready[i].id != ready[j].id)
  }

  ghost predicate WorkersInv(h: History, workers: seq<WorkerPc>) {
    forall w: nat, t: Task {:trigger Known(h, t, Held(w))} ::
      Known(h, t, Held(w)) <==> w < |workers| && workers[w] == WorkerBusy(t)
  }

  ghost predicate CallersInv(h: History, callers: map<nat, Task>) {
    forall c: nat, t: Task {:trigger Known(h, t, Flying(c))} ::
      Known(h, t, Flying(c)) <==> c in callers && callers[c] == t
  }

  ghost predicate SetsInv(h: History, sh: Shared) {
    && (forall id :: id in sh.pending <==> id in h.place && Waiting(h.place[id]))
    && (forall id :: id in sh.running <==> id in h.place && h.place[id].Held?)
    && (forall id :: id in sh.cancelled ==> id in h.place && Live(h.place[id]))
    && sh.active == |sh.running|
  }

  ghost predicate Tagged(h: History, tag: string, id: TaskId) {
    tag != "" && id in h.place && id in h.tasks && Live(h.place[id]) && h.tasks[id].tag == tag
  }

  ghost predicate Indexed(byTag: map<string, set<TaskId>>, tag: string, id: TaskId) {
    tag in byTag && id in byTag[tag]
  }

  ghost predicate TagsInv(h: History, byTag: map<string, set<TaskId>>) {
    && (forall tag :: tag in byTag ==> tag != "" && byTag[tag] != {})
    && (forall tag, id :: Indexed(byTag, tag, id) <==> Tagged(h, tag, id))
  }

  /** What left the queue was due. */
  ghost predicate DueInv(h: History, now: Time) {
    forall id :: id in h.place && id in h.tasks && (h.place[id] == Ready || h.place[id].Held?) ==>
      h.tasks[id].executeAt <= now
  }

  predicate SameChain(a: Task, b: Task) {
    a == b.(id := a.id, executeAt := a.executeAt)
  }

  ghost predicate ActiveIn(h: History, id: TaskId, origin: TaskId) {
    id in h.origin && h.origin[id] == origin && id in h.place && Active(h.place[id])
  }

  ghost predicate InChain(h: History, id: TaskId, origin: TaskId) {
    id in h.tasks && origin in h.tasks && SameChain(h.tasks[id], h.tasks[origin])
  }

  /** A chain keeps its task's description and has at most one occurrence that is not over. */
  ghost predicate ChainInv(h: History) {
    && (forall id :: id in h.origin ==> InChain(h, id, h.origin[id]))
    && (forall a, b, origin :: ActiveIn(h, a, origin) && ActiveIn(h, b, origin) ==> a == b)
  }

  /** Every container holds exactly the tasks whose place it is. */
  ghost predicate PlacesInv(s: System) {
    && IdsInv(s.hist, s.sh.nextId)
    && QueueInv(s.hist, s.sh.queue)
    && ReadyInv(s.hist, s.sh.ready)
    && WorkersInv(s.hist, s.workers)
    && CallersInv(s.hist, s.callers)
  }

  /** The id sets, the counter, the tag index, the due times and the chains agree with the places. */
  ghost predicate BooksInv(s: System) {
    && SetsInv(s.hist, s.sh)
    && TagsInv(s.hist, s.sh.byTag)
    && DueInv(s.hist, s.now)
    && ChainInv(s.hist)
  }

  ghost predicate Inv(s: System) {
    PlacesInv(s) && BooksInv(s)
  }

  /** The two histories agree on every id but one. */
  ghost predicate ChangesOnly(h: History, h': History, id: TaskId) {
    && (forall k :: k != id ==> (k in h.tasks <==> k in h'.tasks) && (k in h.place <==> k in h'.place))
    && (forall k :: k != id && k in h.tasks ==> h'.tasks[k] == h.tasks[k])
    && (forall k :: k != id && k in h.place ==> h'.place[k] == h.place[k])
  }

  lemma KnownElsewhere(h: History, h': History, id: TaskId)
    requires ChangesOnly(h, h', id)
    ensures forall t: Task, p: Place :: t.id != id ==> (Known(h', t, p) <==> Known(h, t, p))
  {
  }

  // ----- how each part of the state follows one id's move -----

  lemma QueueSame(h: History, h': History, id: TaskId, queue: multiset<Task>)
    requires QueueInv(h, queue) && ChangesOnly(h, h', id)
    requires !At(h, id, Queued) && !At(h', id, Queued)
    ensures QueueInv(h', queue)
  {
    KnownElsewhere(h, h', id);
  }

  lemma QueueGain(h: History, h': History, t: Task, queue: multiset<Task>)
    requires QueueInv(h, queue) && ChangesOnly(h, h', t.id)
    requires !At(h, t.id, Queued) && Known(h', t, Queued)
    ensures QueueInv(h', queue + multiset{t})
  {
    KnownElsewhere(h, h', t.id);
  }

  lemma QueueLose(h: History, h': History, t: Task, queue: multiset<Task>)
    requires QueueInv(h, queue) && ChangesOnly(h, h', t.id)
    requires t in queue && !At(h', t.id, Queued)
    ensures QueueInv(h', queue - multiset{t})
  {
    KnownElsewhere(h, h', t.id);
  }

  lemma ReadySame(h: History, h': History, id: TaskId, ready: seq<Task>)
    requires ReadyInv(h, ready) && ChangesOnly(h, h', id)
    requires !At(h, id, Ready) && !At(h', id, Ready)
    ensures ReadyInv(h', ready)
  {
    KnownElsewhere(h, h', id);
  }

  lemma ReadyGain(h: History, h': History, t: Task, ready: seq<Task>)
    requires ReadyInv(h, ready) && ChangesOnly(h, h', t.id)
    requires !At(h, t.id, Ready) && Known(h', t, Ready)
    ensures ReadyInv(h', ready + [t])
  {
    KnownElsewhere(h, h', t.id);
    forall i | 0 <= i < |ready|
      ensures ready[i].id != t.id
    {
      assert ready[i] in ready;
    }
  }

  lemma ReadyLose(h: History, h': History, ready: seq<Task>)
    requires ready != [] && ReadyInv(h, ready)
    requires ChangesOnly(h, h', ready[0].id) && !At(h', ready[0].id, Ready)
    ensures ReadyInv(h', ready[1..])
  {
    KnownElsewhere(h, h', ready[0].id);
    assert ready[0] in ready;
    assert ready == [ready[0]] + ready[1..];
  }

  lemma WorkersSame(h: History, h': History, id: TaskId, workers: seq<WorkerPc>)
    requires WorkersInv(h, workers) && ChangesOnly(h, h', id)
    requires forall w: nat :: !At(h, id, Held(w)) && !At(h', id, Held(w))
    ensures WorkersInv(h', workers)
  {
    KnownElsewhere(h, h', id);
    forall v: nat, u: Task
      ensures Known(h', u, Held(v)) <==> v < |workers| && workers[v] == WorkerBusy(u)
    {
      assert Known(h, u, Held(v)) <==> v < |workers| && workers[v] == WorkerBusy(u);
    }
  }

  lemma WorkersGain(h: History, h': History, t: Task, w: nat, workers: seq<WorkerPc>)
    requires WorkersInv(h, workers) && ChangesOnly(h, h', t.id)
    requires w < |workers| && !workers[w].WorkerBusy?
    requires (forall v: nat :: !At(h, t.id, Held(v))) && Known(h', t, Held(w))
    ensures WorkersInv(h', workers[w := WorkerBusy(t)])
  {
    KnownElsewhere(h, h', t.id);
    forall v: nat, u: Task
      ensures Known(h', u, Held(v)) <==> v < |workers| && workers[w := WorkerBusy(t)][v] == WorkerBusy(u)
    {
      assert Known(h, u, Held(v)) <==> v < |workers| && workers[v] == WorkerBusy(u);
    }
  }

  lemma WorkersLose(h: History, h': History, w: nat, workers: seq<WorkerPc>)
    requires WorkersInv(h, workers) && w < |workers| && workers[w].WorkerBusy?
    requires ChangesOnly(h, h', workers[w].task.id) && At(h', workers[w].task.id, Finished)
    ensures WorkersInv(h', workers[w := WorkerHead])
  {
    KnownElsewhere(h, h', workers[w].task.id);
    assert Known(h, workers[w].task, Held(w));
    forall v: nat, u: Task
      ensures Known(h', u, Held(v)) <==> v < |workers| && workers[w := WorkerHead][v] == WorkerBusy(u)
    {
      assert Known(h, u, Held(v)) <==> v < |workers| && workers[v] == WorkerBusy(u);
    }
  }

  lemma CallersSame(h: History, h': History, id: TaskId, callers: map<nat, Task>)
    requires CallersInv(h, callers) && ChangesOnly(h, h', id)
    requires forall c: nat :: !At(h, id, Flying(c)) && !At(h', id, Flying(c))
    ensures CallersInv(h', callers)
  {
    KnownElsewhere(h, h', id);
    forall c: nat, t: Task
      ensures Known(h', t, Flying(c)) <==> c in callers && callers[c] == t
    {
      assert Known(h, t, Flying(c)) <==> c in callers && callers[c] == t;
    }
  }

  lemma CallersGain(h: History, h': History, t: Task, c: nat, callers: map<nat, Task>)
    requires CallersInv(h, callers) && ChangesOnly(h, h', t.id)
    requires c !in callers && t.id !in h.place && Known(h', t, Flying(c))
    ensures CallersInv(h', callers[c := t])
  {
    KnownElsewhere(h, h', t.id);
    forall d: nat, u: Task
      ensures Known(h', u, Flying(d)) <==> d in callers[c := t] && callers[c := t][d] == u
    {
      assert Known(h, u, Flying(d)) <==> d in callers && callers[d] == u;
    }
  }

  lemma CallersLose(h: History, h': History, c: nat, callers: map<nat, Task>)
    requires CallersInv(h, callers) && c in callers
    requires ChangesOnly(h, h', callers[c].id) && forall d: nat :: !At(h', callers[c].id, Flying(d))
    ensures CallersInv(h', callers - {c})
  {
    KnownElsewhere(h, h', callers[c].id);
    assert Known(h, callers[c], Flying(c));
    forall d: nat, u: Task
      ensures Known(h', u, Flying(d)) <==> d in callers - {c} && (callers - {c})[d] == u
    {
      assert Known(h, u, Flying(d)) <==> d in callers && callers[d] == u;
    }
  }

  ghost predicate TagsUntouched(h: History, h': History, id: TaskId) {
    forall tag :: Tagged(h, tag, id) <==> Tagged(h', tag, id)
  }

  lemma TaggedElsewhere(h: History, h': History, id: TaskId)
    requires ChangesOnly(h, h', id)
    ensures forall tag, k :: k != id ==> (Tagged(h', tag, k) <==> Tagged(h, tag, k))
  {
  }

  lemma TagsSame(h: History, h': History, id: TaskId, byTag: map<string, set<TaskId>>)
    requires TagsInv(h, byTag) && ChangesOnly(h, h', id) && TagsUntouched(h, h', id)
    ensures TagsInv(h', byTag)
  {
    TaggedElsewhere(h, h', id);
  }

  lemma IndexAfterInsert(byTag: map<string, set<TaskId>>, t: Task)
    ensures forall tag, id ::
      Indexed(TagInsert(byTag, t.tag, t.id), tag, id) <==>
      Indexed(byTag, tag, id) || (id == t.id && tag == t.tag && tag != "")
  {
  }

  lemma IndexAfterErase(byTag: map<string, set<TaskId>>, t: Task)
    requires t.tag != ""
    ensures forall tag, id ::
      Indexed(TagErase(byTag, t.tag, t.id), tag, id) <==>
      Indexed(byTag, tag, id) && (id != t.id || tag != t.tag)
  {
    if t.tag in byTag {
      assert forall id :: id in byTag[t.tag] && id != t.id ==> id in byTag[t.tag] - {t.id};
    }
  }

  lemma TagsGain(h: History, h': History, t: Task, byTag: map<string, set<TaskId>>)
    requires TagsInv(h, byTag) && ChangesOnly(h, h', t.id)
    requires Known(h', t, Queued) && forall tag :: !Tagged(h, tag, t.id)
    ensures TagsInv(h', TagInsert(byTag, t.tag, t.id))
  {
    TaggedElsewhere(h, h', t.id);
    IndexAfterInsert(byTag, t);
  }

  lemma TagsLose(h: History, h': History, t: Task, byTag: map<string, set<TaskId>>)
    requires TagsInv(h, byTag) && ChangesOnly(h, h', t.id)
    requires t.id in h.tasks && h.tasks[t.id] == t && t.id in h'.place && !Live(h'.place[t.id])
    ensures TagsInv(h', TagErase(byTag, t.tag, t.id))
  {
    TaggedElsewhere(h, h', t.id);
    if t.tag != "" {
      IndexAfterErase(byTag, t);
    }
  }

  lemma DueMove(h: History, h': History, id: TaskId, now: Time)
    requires DueInv(h, now) && ChangesOnly(h, h', id) && h.place.Keys <= h.tasks.Keys
    requires id in h'.place && id in h'.tasks && (h'.place[id] == Ready || h'.place[id].Held?) ==>
      h'.tasks[id].executeAt <= now
    ensures DueInv(h', now)
  {
  }

  lemma ChainMove(h: History, id: TaskId, p: Place)
    requires ChainInv(h) && id in h.place && (Active(p) ==> Active(h.place[id]))
    ensures ChainInv(Move(h, id, p))
  {
    var h' := Move(h, id, p);
    assert forall a, origin :: ActiveIn(h', a, origin) ==> ActiveIn(h, a, origin);
    assert forall a, origin :: InChain(h', a, origin) <==> InChain(h, a, origin);
  }

  /** A new id either starts a chain or continues one whose occurrences are all over. */
  lemma ChainRecord(h: History, t: Task, p: Place, origin: TaskId)
    requires ChainInv(h) && t.id !in h.tasks
    requires origin == t.id || (origin in h.tasks && SameChain(t, h.tasks[origin]))
    requires forall id :: !ActiveIn(h, id, origin)
    ensures ChainInv(Record(h, t, p, origin))
  {
    var h' := Record(h, t, p, origin);
    assert forall a, o :: a != t.id ==> (ActiveIn(h', a, o) <==> ActiveIn(h, a, o));
    assert forall a, o :: InChain(h, a, o) ==> InChain(h', a, o);
    assert forall o :: ActiveIn(h', t.id, o) ==> o == origin;
  }

  lemma IdsMove(h: History, id: TaskId, p: Place, nextId: TaskId)
    requires IdsInv(h, nextId) && id in h.place
    ensures IdsInv(Move(h, id, p), nextId) && ChangesOnly(h, Move(h, id, p), id)
    ensures Move(h, id, p).tasks == h.tasks && At(Move(h, id, p), id, p)
    ensures forall q :: At(Move(h, id, p), id, q) ==> q == p
  {
  }

  lemma IdsRecord(h: History, t: Task, p: Place, origin: TaskId, nextId: TaskId)
    requires IdsInv(h, nextId) && t.id == nextId
    ensures t.id !in h.tasks && t.id !in h.place
    ensures IdsInv(Record(h, t, p, origin), nextId + 1) && ChangesOnly(h, Record(h, t, p, origin), t.id)
    ensures Known(Record(h, t, p, origin), t, p)
    ensures forall q :: !At(h, t.id, q) && (At(Record(h, t, p, origin), t.id, q) ==> q == p)
  {
  }

  lemma SetsDraw(h: History, t: Task, c: nat, sh: Shared, nextId: TaskId)
    requires SetsInv(h, sh) && t.id !in h.place
    ensures SetsInv(Record(h, t, Flying(c), t.id), sh.(nextId := nextId))
  {
  }

  lemma SetsLock(h: History, t: Task, sh: Shared)
    requires SetsInv(h, sh) && t.id in h.place && h.place[t.id].Flying?
    ensures SetsInv(Move(h, t.id, if sh.isRunning then Queued else Rejected), Schedule(sh, t))
  {
  }

  lemma SetsPop(h: History, t: Task, sh: Shared)
    requires SetsInv(h, sh) && At(h, t.id, Queued)
    ensures SetsInv(Move(h, t.id, if t.id in sh.cancelled then Dropped else Ready), Pop(sh, t))
  {
  }

  lemma SetsTake(h: History, w: nat, sh: Shared)
    requires SetsInv(h, sh) && sh.ready != [] && At(h, sh.ready[0].id, Ready)
    ensures SetsInv(Move(h, sh.ready[0].id, Held(w)), Take(sh))
  {
  }

  lemma SetsComplete(h: History, t: Task, sh: Shared)
    requires SetsInv(h, sh) && t.id in h.place && h.place[t.id].Held?
    ensures SetsInv(Move(h, t.id, Finished), Retire(sh, t))
  {
  }

  lemma SetsRenew(h: History, t: Task, origin: TaskId, sh: Shared, nextId: TaskId)
    requires SetsInv(h, sh) && t.id !in h.place
    ensures SetsInv(Record(h, t, Queued, origin), Insert(sh, t).(nextId := nextId))
  {
  }

  lemma NotTagged(h: History, id: TaskId)
    requires id !in h.place || !Live(h.place[id])
    ensures forall tag :: !Tagged(h, tag, id)
  {
  }

  // What `Move` does to the index, the due times and the chains.

  lemma TagsEnter(h: History, t: Task, byTag: map<string, set<TaskId>>, nextId: TaskId)
    requires IdsInv(h, nextId) && TagsInv(h, byTag)
    requires t.id in h.tasks && h.tasks[t.id] == t && t.id in h.place && !Live(h.place[t.id])
    ensures TagsInv(Move(h, t.id, Queued), TagInsert(byTag, t.tag, t.id))
  {
    IdsMove(h, t.id, Queued, nextId);
    NotTagged(h, t.id);
    TagsGain(h, Move(h, t.id, Queued), t, byTag);
  }

  lemma TagsKeep(h: History, id: TaskId, p: Place, byTag: map<string, set<TaskId>>, nextId: TaskId)
    requires IdsInv(h, nextId) && TagsInv(h, byTag) && id in h.place && Live(h.place[id]) == Live(p)
    ensures TagsInv(Move(h, id, p), byTag)
  {
    IdsMove(h, id, p, nextId);
    assert forall tag :: Tagged(Move(h, id, p), tag, id) <==> Tagged(h, tag, id);
    TagsSame(h, Move(h, id, p), id, byTag);
  }

  lemma TagsLeave(h: History, t: Task, p: Place, byTag: map<string, set<TaskId>>, nextId: TaskId)
    requires IdsInv(h, nextId) && TagsInv(h, byTag) && !Live(p)
    requires t.id in h.tasks && h.tasks[t.id] == t
    ensures TagsInv(Move(h, t.id, p), TagErase(byTag, t.tag, t.id))
  {
    IdsMove(h, t.id, p, nextId);
    TagsLose(h, Move(h, t.id, p), t, byTag);
  }

  lemma DueAfter(h: History, id: TaskId, p: Place, now: Time, nextId: TaskId)
    requires IdsInv(h, nextId) && DueInv(h, now) && id in h.place
    requires p == Ready || p.Held? ==> h.tasks[id].executeAt <= now
    ensures DueInv(Move(h, id, p), now)
  {
  }

  lemma RecordBooks(h: History, t: Task, p: Place, origin: TaskId, byTag: map<string, set<TaskId>>, now: Time,
                    nextId: TaskId)
    requires IdsInv(h, nextId) && TagsInv(h, byTag) && DueInv(h, now) && t.id == nextId
    requires p == Queued || p.Flying?
    ensures TagsInv(Record(h, t, p, origin), if p == Queued then TagInsert(byTag, t.tag, t.id) else byTag)
    ensures DueInv(Record(h, t, p, origin), now)
  {
    var h' := Record(h, t, p, origin);
    IdsRecord(h, t, p, origin, nextId);
    NotTagged(h, t.id);
    if p == Queued {
      TagsGain(h, h', t, byTag);
    } else {
      NotTagged(h', t.id);
      TagsSame(h, h', t.id, byTag);
    }
    DueMove(h, h', t.id, now);
  }

  lemma WorkersIdle(h: History, workers: seq<WorkerPc>, w: nat, pc: WorkerPc)
    requires WorkersInv(h, workers) && w < |workers| && !workers[w].WorkerBusy? && !pc.WorkerBusy?
    ensures WorkersInv(h, workers[w := pc])
  {
    forall v: nat, u: Task
      ensures Known(h, u, Held(v)) <==> v < |workers| && workers[w := pc][v] == WorkerBusy(u)
    {
      assert Known(h, u, Held(v)) <==> v < |workers| && workers[v] == WorkerBusy(u);
    }
  }

  // ----- the steps -----

  lemma InitialInv(threads: nat)
    ensures Inv(Initial(threads))
  {
  }

  lemma OriginsAreOld(h: History, nextId: TaskId)
    requires IdsInv(h, nextId) && ChainInv(h)
    ensures nextId !in h.tasks && forall id :: !ActiveIn(h, id, nextId)
  {
    forall id
      ensures !ActiveIn(h, id, nextId)
    {
      if id in h.origin {
        assert InChain(h, id, h.origin[id]);
      }
    }
  }

  lemma DrawPlaces(s: System, c: nat, request: Task, delay: int)
    requires PlacesInv(s) && c !in s.callers
    ensures PlacesInv(DoDraw(s, c, request, delay))
  {
    var t, h := DrawTask(s, request, delay), s.hist;
    var h' := Record(h, t, Flying(c), t.id);
    IdsRecord(h, t, Flying(c), t.id, s.sh.nextId);
    QueueSame(h, h', t.id, s.sh.queue);
    ReadySame(h, h', t.id, s.sh.ready);
    WorkersSame(h, h', t.id, s.workers);
    CallersGain(h, h', t, c, s.callers);
  }

  lemma DrawBooks(s: System, c: nat, request: Task, delay: int)
    requires IdsInv(s.hist, s.sh.nextId) && BooksInv(s)
    ensures BooksInv(DoDraw(s, c, request, delay))
  {
    var t, h := DrawTask(s, request, delay), s.hist;
    IdsRecord(h, t, Flying(c), t.id, s.sh.nextId);
    OriginsAreOld(h, s.sh.nextId);
    SetsDraw(h, t, c, s.sh, s.sh.nextId + 1);
    RecordBooks(h, t, Flying(c), t.id, s.sh.byTag, s.now, s.sh.nextId);
    ChainRecord(h, t, Flying(c), t.id);
  }

  function LockPlace(s: System): Place {
    if s.sh.isRunning then Queued else Rejected
  }

  lemma LockPlaces(s: System, c: nat)
    requires PlacesInv(s) && c in s.callers
    ensures PlacesInv(DoLock(s, c))
  {
    var t, h, p := s.callers[c], s.hist, LockPlace(s);
    var h' := Move(h, t.id, p);
    assert Known(h, t, Flying(c));
    IdsMove(h, t.id, p, s.sh.nextId);
    if s.sh.isRunning {
      QueueGain(h, h', t, s.sh.queue);
    } else {
      QueueSame(h, h', t.id, s.sh.queue);
    }
    ReadySame(h, h', t.id, s.sh.ready);
    WorkersSame(h, h', t.id, s.workers);
    CallersLose(h, h', c, s.callers);
  }

  lemma LockTags(s: System, c: nat)
    requires IdsInv(s.hist, s.sh.nextId) && TagsInv(s.hist, s.sh.byTag)
    requires c in s.callers && Known(s.hist, s.callers[c], Flying(c))
    ensures TagsInv(DoLock(s, c).hist, DoLock(s, c).sh.byTag)
  {
    var t := s.callers[c];
    if s.sh.isRunning {
      TagsEnter(s.hist, t, s.sh.byTag, s.sh.nextId);
    } else {
      TagsKeep(s.hist, t.id, Rejected, s.sh.byTag, s.sh.nextId);
    }
  }

  lemma LockRest(s: System, c: nat)
    requires IdsInv(s.hist, s.sh.nextId) && DueInv(s.hist, s.now) && ChainInv(s.hist)
    requires c in s.callers && Known(s.hist, s.callers[c], Flying(c))
    ensures DueInv(DoLock(s, c).hist, s.now) && ChainInv(DoLock(s, c).hist)
  {
    var t := s.callers[c];
    DueAfter(s.hist, t.id, LockPlace(s), s.now, s.sh.nextId);
    ChainMove(s.hist, t.id, LockPlace(s));
  }

  lemma LockBooks(s: System, c: nat)
    requires IdsInv(s.hist, s.sh.nextId) && BooksInv(s)
    requires c in s.callers && Known(s.hist, s.callers[c], Flying(c))
    ensures BooksInv(DoLock(s, c))
  {
    LockTags(s, c);
    LockRest(s, c);
    SetsLock(s.hist, s.callers[c], s.sh);
  }

  lemma CancelSets(h: History, sh: Shared, ids: set<TaskId>)
    requires SetsInv(h, sh) && ids <= sh.pending
    ensures SetsInv(h, sh.(cancelled := sh.cancelled + ids))
  {
  }

  lemma KeepCancels(s: System, ids: set<TaskId>)
    requires Inv(s) && ids <= s.sh.pending
    ensures Inv(s.(sh := s.sh.(cancelled := s.sh.cancelled + ids)))
  {
    CancelSets(s.hist, s.sh, ids);
  }

  function PopPlace(s: System, top: Task): Place {
    if top.id in s.sh.cancelled then Dropped else Ready
  }

  lemma PopPlaces(s: System, top: Task)
    requires PlacesInv(s) && top in s.sh.queue
    ensures PlacesInv(DoPop(s, top))
  {
    var h, p := s.hist, PopPlace(s, top);
    var h' := Move(h, top.id, p);
    assert Known(h, top, Queued);
    IdsMove(h, top.id, p, s.sh.nextId);
    QueueLose(h, h', top, s.sh.queue);
    if top.id in s.sh.cancelled {
      ReadySame(h, h', top.id, s.sh.ready);
    } else {
      ReadyGain(h, h', top, s.sh.ready);
    }
    WorkersSame(h, h', top.id, s.workers);
    CallersSame(h, h', top.id, s.callers);
  }

  lemma PopTags(s: System, top: Task)
    requires IdsInv(s.hist, s.sh.nextId) && TagsInv(s.hist, s.sh.byTag) && Known(s.hist, top, Queued)
    ensures TagsInv(DoPop(s, top).hist, DoPop(s, top).sh.byTag)
  {
    if top.id in s.sh.cancelled {
      TagsLeave(s.hist, top, Dropped, s.sh.byTag, s.sh.nextId);
    } else {
      TagsKeep(s.hist, top.id, Ready, s.sh.byTag, s.sh.nextId);
    }
  }

  lemma PopRest(s: System, top: Task)
    requires IdsInv(s.hist, s.sh.nextId) && DueInv(s.hist, s.now) && ChainInv(s.hist)
    requires Known(s.hist, top, Queued) && top.executeAt <= s.now
    ensures DueInv(DoPop(s, top).hist, s.now) && ChainInv(DoPop(s, top).hist)
  {
    DueAfter(s.hist, top.id, PopPlace(s, top), s.now, s.sh.nextId);
    ChainMove(s.hist, top.id, PopPlace(s, top));
  }

  lemma PopBooks(s: System, top: Task)
    requires IdsInv(s.hist, s.sh.nextId) && BooksInv(s)
    requires Known(s.hist, top, Queued) && top.executeAt <= s.now
    ensures BooksInv(DoPop(s, top))
  {
    PopTags(s, top);
    PopRest(s, top);
    SetsPop(s.hist, top, s.sh);
  }

  lemma TakePlaces(s: System, w: nat)
    requires PlacesInv(s) && w < |s.workers| && s.sh.ready != [] && s.workers[w] == WorkerWaiting
    ensures PlacesInv(DoTake(s, w))
  {
    var t, h := s.sh.ready[0], s.hist;
    var h' := Move(h, t.id, Held(w));
    assert t in s.sh.ready && Known(h, t, Ready);
    IdsMove(h, t.id, Held(w), s.sh.nextId);
    QueueSame(h, h', t.id, s.sh.queue);
    ReadyLose(h, h', s.sh.ready);
    WorkersGain(h, h', t, w, s.workers);
    CallersSame(h, h', t.id, s.callers);
  }

  lemma TakeBooks(s: System, w: nat)
    requires IdsInv(s.hist, s.sh.nextId) && BooksInv(s)
    requires w < |s.workers| && s.sh.ready != [] && Known(s.hist, s.sh.ready[0], Ready)
    ensures BooksInv(DoTake(s, w))
  {
    var t, h := s.sh.ready[0], s.hist;
    SetsTake(h, w, s.sh);
    TagsKeep(h, t.id, Held(w), s.sh.byTag, s.sh.nextId);
    DueAfter(h, t.id, Held(w), s.now, s.sh.nextId);
    ChainMove(h, t.id, Held(w));
  }

  /** The part of `Finish` before a next occurrence is inserted. */
  function Retire(sh: Shared, t: Task): Shared {
    sh.(running := sh.running - {t.id}, active := sh.active - 1, byTag := TagErase(sh.byTag, t.tag, t.id),
        cancelled := sh.cancelled - {t.id})
  }

  function DoComplete(s: System, w: nat): System
    requires w < |s.workers| && s.workers[w].WorkerBusy?
  {
    var t := s.workers[w].task;
    s.(sh := Retire(s.sh, t), workers := s.workers[w := WorkerHead], hist := Move(s.hist, t.id, Finished))
  }

  lemma CompletePlaces(s: System, w: nat)
    requires PlacesInv(s) && w < |s.workers| && s.workers[w].WorkerBusy?
    ensures PlacesInv(DoComplete(s, w))
  {
    var t, h := s.workers[w].task, s.hist;
    var h' := Move(h, t.id, Finished);
    assert Known(h, t, Held(w));
    IdsMove(h, t.id, Finished, s.sh.nextId);
    QueueSame(h, h', t.id, s.sh.queue);
    ReadySame(h, h', t.id, s.sh.ready);
    WorkersLose(h, h', w, s.workers);
    CallersSame(h, h', t.id, s.callers);
  }

  lemma CompleteTags(s: System, w: nat)
    requires IdsInv(s.hist, s.sh.nextId) && TagsInv(s.hist, s.sh.byTag)
    requires w < |s.workers| && s.workers[w].WorkerBusy? && Known(s.hist, s.workers[w].task, Held(w))
    ensures TagsInv(DoComplete(s, w).hist, DoComplete(s, w).sh.byTag)
  {
    TagsLeave(s.hist, s.workers[w].task, Finished, s.sh.byTag, s.sh.nextId);
  }

  lemma CompleteRest(s: System, w: nat)
    requires IdsInv(s.hist, s.sh.nextId) && DueInv(s.hist, s.now) && ChainInv(s.hist)
    requires w < |s.workers| && s.workers[w].WorkerBusy? && Known(s.hist, s.workers[w].task, Held(w))
    ensures DueInv(DoComplete(s, w).hist, s.now) && ChainInv(DoComplete(s, w).hist)
  {
    var t := s.workers[w].task;
    DueAfter(s.hist, t.id, Finished, s.now, s.sh.nextId);
    ChainMove(s.hist, t.id, Finished);
  }

  lemma CompleteBooks(s: System, w: nat)
    requires IdsInv(s.hist, s.sh.nextId) && BooksInv(s)
    requires w < |s.workers| && s.workers[w].WorkerBusy? && Known(s.hist, s.workers[w].task, Held(w))
    ensures BooksInv(DoComplete(s, w))
  {
    CompleteTags(s, w);
    CompleteRest(s, w);
    SetsComplete(s.hist, s.workers[w].task, s.sh);
  }

  /** A next occurrence enters the queue. */
  function DoRenew(s: System, t: Task, origin: TaskId): System {
    s.(sh := Insert(s.sh, t).(nextId := s.sh.nextId + 1), hist := Record(s.hist, t, Queued, origin))
  }

  lemma RenewPlaces(s: System, t: Task, origin: TaskId)
    requires PlacesInv(s) && t.id == s.sh.nextId
    ensures PlacesInv(DoRenew(s, t, origin))
  {
    var h, h' := s.hist, Record(s.hist, t, Queued, origin);
    IdsRecord(h, t, Queued, origin, s.sh.nextId);
    QueueGain(h, h', t, s.sh.queue);
    ReadySame(h, h', t.id, s.sh.ready);
    WorkersSame(h, h', t.id, s.workers);
    CallersSame(h, h', t.id, s.callers);
  }

  lemma RenewRest(s: System, t: Task, origin: TaskId)
    requires IdsInv(s.hist, s.sh.nextId) && TagsInv(s.hist, s.sh.byTag) && DueInv(s.hist, s.now) && ChainInv(s.hist)
    requires t.id == s.sh.nextId
    requires origin in s.hist.tasks && SameChain(t, s.hist.tasks[origin])
    requires forall id :: !ActiveIn(s.hist, id, origin)
    ensures TagsInv(DoRenew(s, t, origin).hist, DoRenew(s, t, origin).sh.byTag)
    ensures DueInv(DoRenew(s, t, origin).hist, s.now) && ChainInv(DoRenew(s, t, origin).hist)
  {
    RecordBooks(s.hist, t, Queued, origin, s.sh.byTag, s.now, s.sh.nextId);
    ChainRecord(s.hist, t, Queued, origin);
  }

  lemma RenewSets(s: System, t: Task, origin: TaskId)
    requires IdsInv(s.hist, s.sh.nextId) && SetsInv(s.hist, s.sh) && t.id == s.sh.nextId
    ensures SetsInv(DoRenew(s, t, origin).hist, DoRenew(s, t, origin).sh)
  {
    SetsRenew(s.hist, t, origin, s.sh, s.sh.nextId + 1);
  }

  lemma RenewBooks(s: System, t: Task, origin: TaskId)
    requires IdsInv(s.hist, s.sh.nextId) && BooksInv(s) && t.id == s.sh.nextId
    requires origin in s.hist.tasks && SameChain(t, s.hist.tasks[origin])
    requires forall id :: !ActiveIn(s.hist, id, origin)
    ensures BooksInv(DoRenew(s, t, origin))
  {
    RenewRest(s, t, origin);
    RenewSets(s, t, origin);
  }

  /** `Finish` completes the task and then, when it is periodic and allowed to go on, renews it. */
  lemma FinishSplits(s: System, w: nat, goOn: bool)
    requires PlacesInv(s) && s.hist.origin.Keys == s.hist.tasks.Keys
    requires w < |s.workers| && s.workers[w].WorkerBusy?
    ensures var t := s.workers[w].task;
      DoFinish(s, w, goOn) ==
      if Reschedules(s.sh, t, goOn)
        then DoRenew(DoComplete(s, w), NextOccurrence(s.sh, t, s.now), OriginOf(s.hist, t.id))
        else DoComplete(s, w)
  {
  }

  lemma NoOtherOccurrence(s: System, w: nat)
    requires WorkersInv(s.hist, s.workers) && ChainInv(s.hist) && s.hist.origin.Keys == s.hist.tasks.Keys
    requires w < |s.workers| && s.workers[w].WorkerBusy?
    ensures forall id :: !ActiveIn(DoComplete(s, w).hist, id, OriginOf(s.hist, s.workers[w].task.id))
  {
    var t, h := s.workers[w].task, s.hist;
    var origin := OriginOf(h, t.id);
    assert Known(h, t, Held(w));
    assert ActiveIn(h, t.id, origin);
    var h' := Move(h, t.id, Finished);
    assert forall id :: ActiveIn(h', id, origin) ==> id != t.id && ActiveIn(h, id, origin);
  }

  lemma KeepFinish(s: System, w: nat, goOn: bool)
    requires Inv(s) && w < |s.workers| && s.workers[w].WorkerBusy?
    ensures Inv(DoFinish(s, w, goOn))
  {
    var t := s.workers[w].task;
    assert Known(s.hist, t, Held(w));
    FinishSplits(s, w, goOn);
    CompletePlaces(s, w);
    CompleteBooks(s, w);
    if Reschedules(s.sh, t, goOn) {
      var done, next, origin := DoComplete(s, w), NextOccurrence(s.sh, t, s.now), OriginOf(s.hist, t.id);
      NoOtherOccurrence(s, w);
      assert InChain(s.hist, t.id, origin);
      RenewPlaces(done, next, origin);
      RenewBooks(done, next, origin);
    }
  }

  lemma KeepPop(s: System, top: Task)
    requires Inv(s) && top in s.sh.queue && top.executeAt <= s.now
    ensures Inv(DoPop(s, top))
  {
    assert Known(s.hist, top, Queued);
    PopPlaces(s, top);
    PopBooks(s, top);
  }

  lemma KeepTake(s: System, w: nat)
    requires Inv(s) && w < |s.workers| && s.sh.ready != [] && s.workers[w] == WorkerWaiting
    ensures Inv(DoTake(s, w))
  {
    assert s.sh.ready[0] in s.sh.ready;
    TakePlaces(s, w);
    TakeBooks(s, w);
  }

  lemma KeepLock(s: System, c: nat)
    requires Inv(s) && c in s.callers
    ensures Inv(DoLock(s, c))
  {
    assert Known(s.hist, s.callers[c], Flying(c));
    LockPlaces(s, c);
    LockBooks(s, c);
  }

  lemma KeepIdle(s: System, w: nat, pc: WorkerPc)
    requires Inv(s) && w < |s.workers| && !s.workers[w].WorkerBusy? && !pc.WorkerBusy?
    ensures Inv(s.(workers := s.workers[w := pc]))
  {
    WorkersIdle(s.hist, s.workers, w, pc);
  }

  lemma DueLater(h: History, now: Time, later: Time)
    requires DueInv(h, now) && now <= later
    ensures DueInv(h, later)
  {
  }

  lemma KeepDraw(s: System, c: nat, request: Task, delay: int)
    requires Inv(s) && c !in s.callers
    ensures Inv(DoDraw(s, c, request, delay))
  {
    DrawPlaces(s, c, request, delay);
    DrawBooks(s, c, request, delay);
  }

  lemma KeepTimerPc(s: System, pc: TimerPc)
    requires Inv(s)
    ensures Inv(s.(timer := pc))
  {
  }

  lemma KeepSwitches(s: System, running: bool, paused: bool)
    requires Inv(s)
    ensures Inv(s.(sh := s.sh.(isRunning := running, paused := paused)))
  {
  }

  lemma TimerBodyWaits(s: System, top: Task)
    requires s.sh.paused || s.sh.queue == multiset{} || top.executeAt > s.now
    ensures exists pc :: TimerBody(s, top) == s.(timer := pc)
  {
    assert TimerBody(s, top) == s.(timer := TimerBody(s, top).timer);
  }

  lemma KeepTimerWaits(s: System, top: Task)
    requires Inv(s) && (s.sh.paused || s.sh.queue == multiset{} || top.executeAt > s.now)
    ensures Inv(TimerBody(s, top))
  {
    TimerBodyWaits(s, top);
    var pc :| TimerBody(s, top) == s.(timer := pc);
    KeepTimerPc(s, pc);
  }

  lemma KeepTimerPops(s: System, top: Task)
    requires Inv(s) && !s.sh.paused && top in s.sh.queue && top.executeAt <= s.now
    ensures Inv(TimerBody(s, top))
  {
    assert TimerBody(s, top) == DoPop(s, top);
    KeepPop(s, top);
  }

  lemma KeepTimerBody(s: System, top: Task)
    requires Inv(s) && (s.sh.queue != multiset{} ==> top in s.sh.queue)
    ensures Inv(TimerBody(s, top))
  {
    if s.sh.paused || s.sh.queue == multiset{} || top.executeAt > s.now {
      KeepTimerWaits(s, top);
    } else {
      KeepTimerPops(s, top);
    }
  }

  lemma KeepTick(s: System, d: nat)
    requires Inv(s)
    ensures Inv(s.(now := s.now + d))
  {
    DueLater(s.hist, s.now, s.now + d);
  }

  lemma TimerStepKeepsInv(s: System, l: Label)
    requires Inv(s) && Enabled(s, l)
    requires l.TimerLoop? || l.TimerResumed? || l.TimerWoken?
    ensures Inv(Apply(s, l))
  {
    var pc := Apply(s, l).timer;
    assert Apply(s, l) == s.(timer := pc);
    KeepTimerPc(s, pc);
  }

  lemma TimerLockKeepsInv(s: System, l: Label)
    requires Inv(s) && Enabled(s, l)
    requires l.TimerLock? || l.TimerTaskSeen?
    ensures Inv(Apply(s, l))
  {
    TimerStepShape(s, l);
    if Apply(s, l) == TimerBody(s, l.top) {
      KeepTimerBody(s, l.top);
    } else {
      var pc :| Apply(s, l) == s.(timer := pc);
      KeepTimerPc(s, pc);
    }
  }

  /** Where the timer does not go on to its loop body, only its own position changes. */
  lemma TimerStepShape(s: System, l: Label)
    requires Enabled(s, l) && (l.TimerLock? || l.TimerTaskSeen?)
    ensures Apply(s, l) == TimerBody(s, l.top) || exists pc :: Apply(s, l) == s.(timer := pc)
    ensures s.sh.queue != multiset{} ==> l.top in s.sh.queue
  {
    if Apply(s, l) != TimerBody(s, l.top) {
      assert Apply(s, l) == s.(timer := Apply(s, l).timer);
    }
  }

  lemma WorkerStepKeepsInv(s: System, l: Label)
    requires Inv(s) && Enabled(s, l)
    requires l.WorkerLoop? || (l.WorkerTake? && s.sh.ready == [])
    ensures Inv(Apply(s, l))
  {
    var pc := Apply(s, l).workers[l.worker];
    assert Apply(s, l) == s.(workers := s.workers[l.worker := pc]);
    KeepIdle(s, l.worker, pc);
  }

  lemma SwitchStepKeepsInv(s: System, l: Label)
    requires Inv(s) && Enabled(s, l)
    requires l.CallPause? || l.CallResume? || l.CallStop?
    ensures Inv(Apply(s, l))
  {
    var sh := Apply(s, l).sh;
    assert Apply(s, l) == s.(sh := s.sh.(isRunning := sh.isRunning, paused := sh.paused));
    KeepSwitches(s, sh.isRunning, sh.paused);
  }

  lemma KeepCancel(s: System, id: TaskId)
    requires Inv(s)
    ensures Inv(s.(sh := Cancel(s.sh, id)))
  {
    var ids := if Cancellable(s.sh, id) then {id} else {};
    CancelMarks(s.sh, id);
    KeepCancels(s, ids);
  }

  lemma CancelMarks(sh: Shared, id: TaskId)
    ensures var ids := if Cancellable(sh, id) then {id} else {};
            Cancel(sh, id) == sh.(cancelled := sh.cancelled + ids) && ids <= sh.pending
  {
    assert sh.cancelled + {} == sh.cancelled;
  }

  /** Every step of every thread keeps the global invariant. */
  lemma StepKeepsInv(s: System, l: Label)
    requires Inv(s) && Enabled(s, l)
    ensures Inv(Apply(s, l))
  {
    match l
    case Tick(d) => KeepTick(s, d);
    case Draw(c, request, delay) => KeepDraw(s, c, request, delay);
    case Lock(c) => KeepLock(s, c);
    case WorkerFinish(w, goOn) => KeepFinish(s, w, goOn);
    case WorkerTake(w) => if s.sh.ready == [] { WorkerStepKeepsInv(s, l); } else { KeepTake(s, w); }
    case WorkerLoop(_) => WorkerStepKeepsInv(s, l);
    case CallPause => SwitchStepKeepsInv(s, l);
    case CallResume => SwitchStepKeepsInv(s, l);
    case CallStop => SwitchStepKeepsInv(s, l);
    case CallCancel(id) => KeepCancel(s, id);
    case CallCancelByTag(tag) => KeepCancels(s, TaggedPending(s.sh, tag));
    case CallCancelAll => KeepCancels(s, s.sh.pending);
    case TimerLock(_) => TimerLockKeepsInv(s, l);
    case TimerTaskSeen(_) => TimerLockKeepsInv(s, l);
    case _ => TimerStepKeepsInv(s, l);
  }
}
