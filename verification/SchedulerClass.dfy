/** The methods of `core::Scheduler` over its mutable fields, each critical section proved against
    the function in `SchedulerShared` that the state machine uses. */
module SchedulerClass {
  import S = SchedulerShared
  import opened Wrappers

  type TaskId = S.TaskId
  type Task = S.Task

  /** One turn of a loop over the set `ids` that picks out the elements of `wanted`. */
  lemma PickStep(ids: set<TaskId>, rest: set<TaskId>, wanted: set<TaskId>, id: TaskId)
    requires id in rest && rest <= ids
    ensures (ids - (rest - {id})) * wanted == (ids - rest) * wanted + if id in wanted then {id} else {}
    ensures |(ids - (rest - {id})) * wanted| == |(ids - rest) * wanted| + if id in wanted then 1 else 0
  {
    assert id !in (ids - rest) * wanted;
  }

  /** What a loop that marks the elements of `wanted` has done when `rest` is left of `ids`. */
  ghost predicate Marked(before: set<TaskId>, ids: set<TaskId>, rest: set<TaskId>, wanted: set<TaskId>,
                         marks: set<TaskId>, count: nat)
  {
    rest <= ids && marks == before + (ids - rest) * wanted && count == |(ids - rest) * wanted|
  }

  lemma MarkStep(before: set<TaskId>, ids: set<TaskId>, rest: set<TaskId>, wanted: set<TaskId>,
                 marks: set<TaskId>, count: nat, id: TaskId)
    requires Marked(before, ids, rest, wanted, marks, count) && id in rest
    ensures if id in wanted then Marked(before, ids, rest - {id}, wanted, marks + {id}, count + 1)
            else Marked(before, ids, rest - {id}, wanted, marks, count)
  {
    PickStep(ids, rest, wanted, id);
  }

  lemma AllMarked(before: set<TaskId>, ids: set<TaskId>, wanted: set<TaskId>, marks: set<TaskId>, count: nat)
    requires Marked(before, ids, {}, wanted, marks, count)
    ensures marks == before + ids * wanted && count == |ids * wanted|
  {
    assert ids - {} == ids;
  }

  lemma NoneMarked(before: set<TaskId>, ids: set<TaskId>, wanted: set<TaskId>)
    ensures Marked(before, ids, ids, wanted, before, 0)
  {
    assert (ids - ids) * wanted == {};
  }

  /** One turn of a loop that looks for a first task in `queue`. */
  lemma TopStep(queue: multiset<Task>, rest: multiset<Task>, top: Task, t: Task)
    requires t in rest && rest <= queue
    requires forall u :: u in queue && queue[u] > rest[u] ==> !S.After(top, u)
    ensures var next := if S.After(top, t) then t else top;
      forall u :: u in queue && queue[u] > (rest - multiset{t})[u] ==> !S.After(next, u)
  {
  }

  class Scheduler {
    var taskQueue: multiset<Task>
    var readyQueue: seq<Task>
    var pendingTasks: set<TaskId>
    var runningTasks: set<TaskId>
    var cancelledTasks: set<TaskId>
    var tasksByTag: map<string, set<TaskId>>
    var activeTasks: int
    var nextId: TaskId
    var running: bool
    var paused: bool

    ghost function View(): S.Shared
      reads this
    {
      S.Shared(taskQueue, readyQueue, pendingTasks, runningTasks, cancelledTasks, tasksByTag, activeTasks, nextId,
               running, paused)
    }

    constructor ()
      ensures View() == S.INITIAL
    {
      taskQueue, readyQueue := multiset{}, [];
      pendingTasks, runningTasks, cancelledTasks := {}, {}, {};
      tasksByTag := map[];
      activeTasks, nextId := 0, 1;
      running, paused := true, false;
    }

    method GenerateId() returns (id: TaskId)
      modifies this`nextId
      ensures id == old(nextId) && View() == old(View()).(nextId := old(nextId) + 1)
    {
      id := nextId;
      nextId := nextId + 1;
    }

    method InsertTag(tag: string, id: TaskId)
      modifies this`tasksByTag
      ensures tasksByTag == S.TagInsert(old(tasksByTag), tag, id)
    {
      if tag != "" {
        var ids := if tag in tasksByTag then tasksByTag[tag] else {};
        tasksByTag := tasksByTag[tag := ids + {id}];
      }
    }

    method EraseTag(tag: string, id: TaskId)
      modifies this`tasksByTag
      ensures tasksByTag == S.TagErase(old(tasksByTag), tag, id)
    {
      if tag != "" && tag in tasksByTag {
        var ids := tasksByTag[tag] - {id};
        tasksByTag := tasksByTag[tag := ids];
        if ids == {} {
          tasksByTag := tasksByTag - {tag};
          assert tasksByTag == old(tasksByTag) - {tag};
        }
      }
    }

    /** What both insertions do: the pending set, the tag index and the queue receive the task. */
    method Enqueue(task: Task)
      modifies this`pendingTasks, this`tasksByTag, this`taskQueue
      ensures View() == S.Insert(old(View()), task)
    {
      pendingTasks := pendingTasks + {task.id};
      InsertTag(task.tag, task.id);
      taskQueue := taskQueue + multiset{task};
    }

    /** The locked part of `schedule` and `schedule_periodic`, for a task already given its id. */
    method InsertLocked(task: Task) returns (id: TaskId)
      modifies this
      ensures View() == S.Schedule(old(View()), task)
      ensures id == if old(running) then task.id else S.INVALID_TASK_ID
    {
      if !running {
        return S.INVALID_TASK_ID;
      }
      Enqueue(task);
      return task.id;
    }

    /** `schedule_periodic`, and with no flag also `schedule`. An empty callback draws no id. */
    method SchedulePeriodic(callback: Option<nat>, interval: int, tag: string, priority: S.Priority, delay: int,
                            shouldContinue: Option<nat>, now: S.Time)
      returns (id: TaskId)
      modifies this
      ensures callback.None? ==> id == S.INVALID_TASK_ID && View() == old(View())
      ensures callback.Some? ==>
        View() == S.Schedule(old(View()).(nextId := old(nextId) + 1),
                             S.Task(old(nextId), tag, priority, now + delay, interval, callback.value, shouldContinue))
      ensures callback.Some? ==> id == if old(running) then old(nextId) else S.INVALID_TASK_ID
    {
      if callback.None? {
        return S.INVALID_TASK_ID;
      }
      id := GenerateId();
      id := InsertLocked(S.Task(id, tag, priority, now + delay, interval, callback.value, shouldContinue));
    }

    method Cancel(id: TaskId) returns (done: bool)
      modifies this`cancelledTasks
      ensures done == S.Cancellable(old(View()), id) && View() == S.Cancel(old(View()), id)
    {
      if id == S.INVALID_TASK_ID {
        return false;
      }
      if id !in pendingTasks {
        return false;
      }
      cancelledTasks := cancelledTasks + {id};
      return true;
    }

    /** Counts the pending ids under the tag, those already cancelled among them. */
    method CancelByTag(tag: string) returns (count: nat)
      modifies this`cancelledTasks
      ensures count == |S.TaggedPending(old(View()), tag)| && View() == S.CancelByTag(old(View()), tag)
    {
      if tag == "" || tag !in tasksByTag {
        assert cancelledTasks + {} == cancelledTasks;
        return 0;
      }
      count := MarkPending(tasksByTag[tag]);
    }

    /** The loop of `cancel_by_tag` over the ids under the tag. */
    method MarkPending(ids: set<TaskId>) returns (count: nat)
      modifies this`cancelledTasks
      ensures cancelledTasks == old(cancelledTasks) + ids * pendingTasks && count == |ids * pendingTasks|
    {
      count := 0;
      var rest := ids;
      NoneMarked(cancelledTasks, ids, pendingTasks);
      while rest != {}
        invariant Marked(old(cancelledTasks), ids, rest, pendingTasks, cancelledTasks, count)
        decreases rest
      {
        var id :| id in rest;
        MarkStep(old(cancelledTasks), ids, rest, pendingTasks, cancelledTasks, count, id);
        if id in pendingTasks {
          cancelledTasks := cancelledTasks + {id};
          count := count + 1;
        }
        rest := rest - {id};
      }
      AllMarked(old(cancelledTasks), ids, pendingTasks, cancelledTasks, count);
    }

    method CancelAll()
      modifies this`cancelledTasks
      ensures View() == S.CancelAll(old(View()))
    {
      var rest := pendingTasks;
      while rest != {}
        invariant rest <= pendingTasks
        invariant cancelledTasks == old(cancelledTasks) + (pendingTasks - rest)
        decreases rest
      {
        var id :| id in rest;
        cancelledTasks := cancelledTasks + {id};
        rest := rest - {id};
      }
    }

    method IsPending(id: TaskId) returns (b: bool)
      ensures b == S.IsPending(View(), id)
    {
      return id in pendingTasks && id !in cancelledTasks;
    }

    /** Counts exactly the ids for which `IsPending` answers true. */
    method PendingCount() returns (count: nat)
      ensures count == |set id | id in pendingTasks && S.IsPending(View(), id)|
    {
      count := 0;
      var rest := pendingTasks;
      while rest != {}
        invariant rest <= pendingTasks
        invariant count == |(pendingTasks - rest) * (pendingTasks - cancelledTasks)|
        decreases rest
      {
        var id :| id in rest;
        PickStep(pendingTasks, rest, pendingTasks - cancelledTasks, id);
        if id !in cancelledTasks {
          count := count + 1;
        }
        rest := rest - {id};
      }
      assert (pendingTasks - {}) * (pendingTasks - cancelledTasks)
          == set id | id in pendingTasks && S.IsPending(View(), id);
    }

    method PendingCountByTag(tag: string) returns (count: nat)
      ensures count == |S.PendingIdsByTag(View(), tag)|
    {
      if tag == "" || tag !in tasksByTag {
        return 0;
      }
      count := 0;
      var ids := tasksByTag[tag];
      var rest := ids;
      while rest != {}
        invariant rest <= ids
        invariant count == |(ids - rest) * (pendingTasks - cancelledTasks)|
        decreases rest
      {
        var id :| id in rest;
        PickStep(ids, rest, pendingTasks - cancelledTasks, id);
        if id in pendingTasks && id !in cancelledTasks {
          count := count + 1;
        }
        rest := rest - {id};
      }
      assert (ids - {}) * (pendingTasks - cancelledTasks) == S.PendingIdsByTag(View(), tag);
    }

    method StopLocked() returns (first: bool)
      modifies this
      ensures first == old(running) && View() == old(View()).(isRunning := false)
    {
      first := running;
      running := false;
    }

    /** An element of the priority queue that no other comes strictly before. */
    method Top() returns (top: Task)
      requires taskQueue != multiset{}
      ensures S.IsTop(taskQueue, top)
    {
      top :| top in taskQueue;
      var rest := taskQueue - multiset{top};
      while rest != multiset{}
        invariant rest <= taskQueue && top in taskQueue
        invariant forall u :: u in taskQueue && taskQueue[u] > rest[u] ==> !S.After(top, u)
        decreases |rest|
      {
        var t :| t in rest;
        TopStep(taskQueue, rest, top, t);
        if S.After(top, t) {
          top := t;
        }
        rest := rest - multiset{t};
      }
    }

    /** The timer's locked section once a task is queued and nothing is paused: moves the top task on
        when it is due, and otherwise leaves everything as it is. */
    method TimerSection(now: S.Time) returns (top: Task)
      requires taskQueue != multiset{}
      modifies this
      ensures S.IsTop(old(taskQueue), top)
      ensures View() == if top.executeAt <= now then S.Pop(old(View()), top) else old(View())
    {
      top := Top();
      if top.executeAt <= now {
        PopTop(top);
      }
    }

    method PopTop(top: Task)
      modifies this
      ensures View() == S.Pop(old(View()), top)
    {
      taskQueue := taskQueue - multiset{top};
      if top.id in cancelledTasks {
        Drop(top);
      } else {
        readyQueue := readyQueue + [top];
      }
    }

    method Drop(task: Task)
      modifies this`pendingTasks, this`cancelledTasks, this`tasksByTag
      ensures pendingTasks == old(pendingTasks) - {task.id}
      ensures cancelledTasks == old(cancelledTasks) - {task.id}
      ensures tasksByTag == S.TagErase(old(tasksByTag), task.tag, task.id)
    {
      pendingTasks := pendingTasks - {task.id};
      cancelledTasks := cancelledTasks - {task.id};
      EraseTag(task.tag, task.id);
    }

    method WorkerTakes() returns (task: Task)
      requires readyQueue != []
      modifies this
      ensures task == old(readyQueue)[0] && View() == S.Take(old(View()))
    {
      task := readyQueue[0];
      readyQueue := readyQueue[1..];
      pendingTasks := pendingTasks - {task.id};
      runningTasks := runningTasks + {task.id};
      activeTasks := activeTasks + 1;
    }

    /** `goOn` is the value read from the task's `should_continue` flag. */
    method WorkerFinishes(task: Task, now: S.Time, goOn: bool)
      modifies this
      ensures View() == S.Finish(old(View()), task, now, goOn)
    {
      Complete(task);
      var shouldReschedule := task.interval > 0 && task.id !in cancelledTasks && (task.shouldContinue.None? || goOn);
      if shouldReschedule {
        Reschedule(task, now);
      }
      cancelledTasks := cancelledTasks - {task.id};
    }

    method Complete(task: Task)
      modifies this`runningTasks, this`activeTasks, this`tasksByTag
      ensures View() == S.Complete(old(View()), task)
    {
      runningTasks := runningTasks - {task.id};
      activeTasks := activeTasks - 1;
      EraseTag(task.tag, task.id);
    }

    method Reschedule(task: Task, now: S.Time)
      modifies this`nextId, this`pendingTasks, this`tasksByTag, this`taskQueue
      ensures View() == S.Renew(old(View()), task, now)
    {
      var newId := nextId;
      nextId := nextId + 1;
      var newTask := task.(id := newId, executeAt := now + task.interval);
      Enqueue(newTask);
    }
  }
}
