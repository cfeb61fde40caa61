/** `scripting::ScriptScheduler` itself: a list of shared task records that calls and updates change
    in place. */
module ScriptSchedulers {
  import opened ScriptTasks
  import ScriptTiming
  import Sequences

  class TaskRecord {
    const id: nat
    var remaining: int
    const interval: int
    const periodic: bool
    var cancelled: bool

    constructor (id: nat, remaining: int, interval: int, periodic: bool)
      ensures Value() == Task(id, remaining, interval, periodic, false)
    {
      this.id, this.remaining, this.interval, this.periodic, this.cancelled := id, remaining, interval, periodic, false;
    }

    function Value(): Task
      reads this
    {
      Task(id, remaining, interval, periodic, cancelled)
    }

    method Elapse(elapsed: int) returns (isDue: bool)
      modifies this
      ensures Value() == Tick(old(Value()), elapsed) && isDue == Due(old(Value()), elapsed)
    {
      if cancelled {
        return false;
      }
      remaining := remaining - elapsed;
      isDue := remaining <= 0;
      if isDue && periodic {
        remaining := interval;
      }
    }
  }

  function Values(records: seq<TaskRecord>): (values: seq<Task>)
    reads records
    ensures |values| == |records| && forall k :: 0 <= k < |records| ==> values[k] == records[k].Value()
  {
    seq(|records|, k requires 0 <= k < |records| reads records => records[k].Value())
  }

  ghost predicate Distinct<T>(records: seq<T>) {
    forall i, j :: 0 <= i < j < |records| ==> records[i] != records[j]
  }

  /** The records `due` stand at `places` in the list. */
  ghost predicate AreAt<T>(records: seq<T>, due: seq<T>, places: seq<nat>) {
    |due| == |places| && forall k :: 0 <= k < |due| ==> places[k] < |records| && due[k] == records[places[k]]
  }

  /** What the first loop has put aside after `i` records, whose values were `before`. */
  ghost predicate Gathered<T>(records: seq<T>, due: seq<T>, places: seq<nat>, before: seq<Task>, elapsed: int, i: nat) {
    && i <= |before| && AreAt(records, due, places)
    && places + DueFrom(before, elapsed, i) == DueFrom(before, elapsed, 0)
  }

  class ScriptScheduler {
    var tasks: seq<TaskRecord>
    var nextId: nat

    constructor ()
      ensures Distinct(tasks) && View() == INITIAL
    {
      tasks := [];
      nextId := 1;
    }

    function View(): State
      reads this, tasks
    {
      State(Values(tasks), nextId)
    }

    /** A call leaves the records in the list where they are and puts new ones after them. */
    twostate predicate Extends()
      reads this
    {
      |old(tasks)| <= |tasks| && tasks[..|old(tasks)|] == old(tasks)
      && forall k :: |old(tasks)| <= k < |tasks| ==> fresh(tasks[k])
    }

    method Add(remaining: int, interval: int, periodic: bool) returns (id: nat)
      requires Distinct(tasks)
      modifies this
      ensures Distinct(tasks) && Extends() && id == old(nextId)
      ensures View() == Push(old(View()), Task(id, remaining, interval, periodic, false))
    {
      id := nextId;
      nextId := nextId + 1;
      var task := new TaskRecord(id, remaining, interval, periodic);
      tasks := tasks + [task];
      assert Values(tasks) == old(Values(tasks)) + [task.Value()];
    }

    method Schedule(delay: int) returns (id: nat)
      requires Distinct(tasks)
      modifies this
      ensures Distinct(tasks) && Extends() && id == old(nextId)
      ensures View() == Do(old(View()), Op.Schedule(delay))
    {
      id := Add(delay * 1000, 0, false);
    }

    method SchedulePeriodic(interval: int, initialDelay: int) returns (id: nat)
      requires Distinct(tasks)
      modifies this
      ensures Distinct(tasks) && Extends() && id == old(nextId)
      ensures View() == Do(old(View()), Op.SchedulePeriodic(interval, initialDelay))
    {
      id := Add((if initialDelay > 0 then initialDelay else interval) * 1000, interval * 1000, true);
    }

    /** Whether some record has the id: also one that is cancelled and not yet erased. */
    method Cancel(id: nat) returns (found: bool)
      requires Distinct(tasks)
      modifies tasks
      ensures found <==> exists k :: 0 <= k < |tasks| && tasks[k].id == id
      ensures View() == Do(old(View()), Op.Cancel(id))
    {
      var i := Find(id);
      found := i < |tasks|;
      CancelFirstAt(Values(tasks), id, i);
      if found {
        Mark(i);
      }
    }

    method Find(id: nat) returns (i: nat)
      ensures i <= |tasks| && (i < |tasks| ==> Values(tasks)[i].id == id)
      ensures forall k :: 0 <= k < i ==> Values(tasks)[k].id != id
      ensures i < |tasks| <==> exists k :: 0 <= k < |tasks| && tasks[k].id == id
    {
      i := 0;
      while i < |tasks| && tasks[i].id != id
        invariant i <= |tasks| && forall k :: 0 <= k < i ==> tasks[k].id != id
      {
        i := i + 1;
      }
    }

    method Mark(i: nat)
      requires Distinct(tasks) && i < |tasks|
      modifies tasks[i]
      ensures Values(tasks) == old(Values(tasks))[i := old(Values(tasks))[i].(cancelled := true)]
    {
      tasks[i].cancelled := true;
    }

    method CancelAll()
      requires Distinct(tasks)
      modifies tasks
      ensures View() == Do(old(View()), Op.CancelAll)
    {
      var i := 0;
      while i < |tasks|
        invariant i <= |tasks|
        invariant forall k :: 0 <= k < |tasks| ==>
          tasks[k].Value() == if k < i then old(tasks[k].Value()).(cancelled := true) else old(tasks[k].Value())
      {
        tasks[i].cancelled := true;
        i := i + 1;
      }
    }

    method IsPending(id: nat) returns (pending: bool)
      ensures pending <==> exists t :: t in View().tasks && t.id == id && !t.cancelled
    {
      var i := 0;
      while i < |tasks| && !(tasks[i].id == id && !tasks[i].cancelled)
        invariant i <= |tasks| && forall k :: 0 <= k < i ==> !(tasks[k].id == id && !tasks[k].cancelled)
      {
        i := i + 1;
      }
      pending := i < |tasks|;
      assert pending ==> View().tasks[i] in View().tasks;
    }

    method PendingCount() returns (count: nat)
      ensures count == |Remaining(View().tasks)|
    {
      count := 0;
      var i := 0;
      while i < |tasks|
        invariant i <= |tasks| && count + |Remaining(View().tasks[i..])| == |Remaining(View().tasks)|
      {
        assert View().tasks[i..][1..] == View().tasks[i + 1..];
        if !tasks[i].cancelled {
          count := count + 1;
        }
        i := i + 1;
      }
    }

    // ----- callbacks -----

    method Perform(op: Op)
      requires Distinct(tasks)
      modifies this, tasks
      ensures Distinct(tasks) && Extends() && View() == Do(old(View()), op)
    {
      match op {
        case Schedule(delay) => var id := Schedule(delay);
        case SchedulePeriodic(interval, initialDelay) => var id := SchedulePeriodic(interval, initialDelay);
        case Cancel(id) => var found := Cancel(id);
        case CancelAll => CancelAll();
      }
    }

    /** What the callback of a task does to the scheduler. */
    method PerformAll(ops: seq<Op>)
      requires Distinct(tasks)
      modifies this, tasks
      ensures Distinct(tasks) && Extends() && View() == DoAll(old(View()), ops)
    {
      var i := 0;
      while i < |ops|
        invariant i <= |ops| && Distinct(tasks) && Extends()
        invariant DoAll(View(), ops[i..]) == DoAll(old(View()), ops)
      {
        assert ops[i..][1..] == ops[i + 1..];
        Perform(ops[i]);
        i := i + 1;
      }
    }

    // ----- updates -----

    method Update(elapsed: int, effects: nat -> Effect) returns (fired: seq<nat>)
      requires Distinct(tasks) && Ordered(View())
      modifies this, tasks
      ensures Distinct(tasks) && Ordered(View()) && View() == Updated(old(View()), elapsed, effects)
      ensures fired == Fired(old(View()), elapsed, effects)
    {
      if tasks == [] {
        return [];
      }
      ghost var places;
      var due;
      due, places := TickDown(elapsed);
      fired := RunDue(due, places, effects);
      ScriptTiming.RunAllKeepsOrder(Ticked(old(View()), elapsed), places, effects);
      Erase();
      ScriptTiming.UpdatedKeepsOrder(old(View()), elapsed, effects);
    }

    /** The first loop: what is due, as the records themselves. */
    method TickDown(elapsed: int) returns (due: seq<TaskRecord>, ghost places: seq<nat>)
      requires Distinct(tasks)
      modifies tasks
      ensures View() == Ticked(old(View()), elapsed)
      ensures places == DueFrom(old(View()).tasks, elapsed, 0)
      ensures AreAt(tasks, due, places)
    {
      due, places := [], [];
      ghost var before := Values(tasks);
      NoneGathered(tasks, before, elapsed);
      var i := 0;
      while i < |tasks|
        invariant i <= |tasks| && TickedUpTo(before, elapsed, i)
        invariant Gathered(tasks, due, places, before, elapsed, i)
      {
        due, places := TickNext(due, places, before, elapsed, i);
        i := i + 1;
      }
      AllTicked(before, elapsed);
      AllGathered(tasks, due, places, before, elapsed);
    }

    lemma AllTicked(before: seq<Task>, elapsed: int)
      requires TickedUpTo(before, elapsed, |tasks|)
      ensures Values(tasks) == TickAll(before, elapsed)
    {
    }

    ghost predicate TickedUpTo(before: seq<Task>, elapsed: int, i: nat)
      reads this, tasks
    {
      |before| == |tasks| && forall k :: 0 <= k < |tasks| ==>
        tasks[k].Value() == if k < i then Tick(before[k], elapsed) else before[k]
    }

    method TickNext(due: seq<TaskRecord>, ghost places: seq<nat>, ghost before: seq<Task>, elapsed: int, i: nat)
      returns (due': seq<TaskRecord>, ghost places': seq<nat>)
      requires Distinct(tasks) && i < |tasks| && TickedUpTo(before, elapsed, i)
      requires Gathered(tasks, due, places, before, elapsed, i)
      modifies tasks
      ensures TickedUpTo(before, elapsed, i + 1) && Gathered(tasks, due', places', before, elapsed, i + 1)
    {
      GatherStep(tasks, due, places, before, elapsed, i);
      due', places' := due, places;
      var isDue := TickOne(before, elapsed, i);
      if isDue {
        due', places' := due + [tasks[i]], places + [i];
      }
    }

    method TickOne(ghost before: seq<Task>, elapsed: int, i: nat) returns (isDue: bool)
      requires Distinct(tasks) && i < |tasks| && TickedUpTo(before, elapsed, i)
      modifies tasks
      ensures TickedUpTo(before, elapsed, i + 1) && isDue == Due(before[i], elapsed)
    {
      isDue := tasks[i].Elapse(elapsed);
    }

    /** The second loop: callbacks may change the list while it goes over the records it was given. */
    method RunDue(due: seq<TaskRecord>, ghost places: seq<nat>, effects: nat -> Effect) returns (fired: seq<nat>)
      requires Distinct(tasks) && AreAt(tasks, due, places) && Places(places, 0, |tasks|)
      modifies this, tasks
      ensures Distinct(tasks) && Extends() && View() == RunAll(old(View()), places, effects)
      ensures fired == Ran(old(View()), places, effects)
    {
      ghost var last, all := RunAll(View(), places, effects), Ran(View(), places, effects);
      ghost var leads := (s: State, left: seq<nat>, fired: seq<nat>) => Leads(s, left, effects, fired, last, all);
      assert leads(View(), places, []);
      fired := RunEach(due, places, effects, leads, last, all);
      assert Leads(View(), [], effects, fired, last, all);
    }

    /** The loop; `leads` stands for `Leads`, whose definition it does not need. */
    method RunEach(due: seq<TaskRecord>, ghost places: seq<nat>, effects: nat -> Effect,
                   ghost leads: (State, seq<nat>, seq<nat>) -> bool, ghost last: State, ghost all: seq<nat>)
      returns (fired: seq<nat>)
      requires Distinct(tasks) && AreAt(tasks, due, places)
      requires IsLeads(leads, effects, last, all) && leads(View(), places, [])
      modifies this, tasks
      ensures Distinct(tasks) && Extends() && leads(View(), [], fired)
    {
      fired := [];
      ghost var left := places;
      var i := 0;
      while i < |due|
        invariant i <= |due| && Distinct(tasks) && Extends() && AreAt(tasks, due[i..], left)
        invariant leads(View(), left, fired)
      {
        ghost var before := tasks;
        assert due[i..][0] == due[i];
        fired := RunNext(due[i], left, effects, fired, leads, last, all);
        RestIsAt(before, tasks, due, i, left);
        left := left[1..];
        i := i + 1;
      }
      assert left == [];
    }

    method RunNext(task: TaskRecord, ghost left: seq<nat>, effects: nat -> Effect, fired: seq<nat>,
                   ghost leads: (State, seq<nat>, seq<nat>) -> bool, ghost last: State, ghost all: seq<nat>)
      returns (more: seq<nat>)
      requires Distinct(tasks) && IsLeads(leads, effects, last, all) && leads(View(), left, fired)
      requires left != [] && left[0] < |tasks| && tasks[left[0]] == task
      modifies this, tasks
      ensures Distinct(tasks) && Extends() && leads(View(), left[1..], more)
    {
      assert Leads(View(), left, effects, fired, last, all);
      RunStep(View(), left, effects, fired);
      var ran := RunRecord(task, left[0], effects);
      more := fired + ran;
      assert Leads(View(), left[1..], effects, more, last, all);
    }

    method RunRecord(task: TaskRecord, ghost place: nat, effects: nat -> Effect) returns (ran: seq<nat>)
      requires Distinct(tasks) && place < |tasks| && tasks[place] == task
      modifies this, tasks
      ensures Distinct(tasks) && Extends() && View() == RunOne(old(View()), place, effects)
      ensures ran == if old(task.cancelled) then [] else [task.id]
    {
      if task.cancelled {
        return [];
      }
      var effect := effects(task.id);
      PerformAll(effect.ops);
      ghost var after := View();
      if effect.stop && task.periodic {
        task.cancelled := true;
      }
      if !task.periodic {
        task.cancelled := true;
      }
      assert Values(tasks) == after.tasks[place := Settle(after.tasks[place], effect)];
      ran := [task.id];
    }

    /** The third loop. */
    method Erase()
      requires Ordered(View())
      modifies this
      ensures Distinct(tasks) && View() == old(View()).(tasks := Remaining(old(View()).tasks))
    {
      var kept := Kept();
      ScriptTiming.RemainingInOrder(Values(tasks));
      tasks := kept;
    }

    method Kept() returns (kept: seq<TaskRecord>)
      ensures Values(kept) == Remaining(Values(tasks))
    {
      kept := [];
      ghost var values := Values(tasks);
      var i := 0;
      while i < |tasks|
        invariant i <= |tasks| && Values(kept) + Remaining(values[i..]) == Remaining(values)
      {
        ghost var before := Values(kept);
        RemainingStep(before, values, i);
        ValuesAppend(kept, tasks[i]);
        if !tasks[i].cancelled {
          kept := kept + [tasks[i]];
        }
        assert Values(kept) == before + if values[i].cancelled then [] else [values[i]];
        i := i + 1;
      }
    }
  }

  /** Running the tasks at the places left leads to the given state and list of ids. */
  ghost predicate Leads(s: State, left: seq<nat>, effects: nat -> Effect, fired: seq<nat>, last: State, all: seq<nat>) {
    Places(left, 0, |s.tasks|) && RunAll(s, left, effects) == last && fired + Ran(s, left, effects) == all
  }

  ghost predicate IsLeads(leads: (State, seq<nat>, seq<nat>) -> bool, effects: nat -> Effect, last: State,
                          all: seq<nat>)
  {
    forall s, left, fired {:trigger Leads(s, left, effects, fired, last, all)} ::
      leads(s, left, fired) == Leads(s, left, effects, fired, last, all)
  }

  lemma RestIsAt<T>(before: seq<T>, after: seq<T>, due: seq<T>, i: nat, places: seq<nat>)
    requires i < |due| && AreAt(before, due[i..], places) && before <= after
    ensures AreAt(after, due[i + 1..], places[1..])
  {
    assert due[i + 1..] == due[i..][1..];
  }

  lemma AllGathered<T>(records: seq<T>, due: seq<T>, places: seq<nat>, before: seq<Task>, elapsed: int)
    requires Gathered(records, due, places, before, elapsed, |before|)
    ensures AreAt(records, due, places) && places == DueFrom(before, elapsed, 0)
  {
  }

  lemma NoneGathered<T>(records: seq<T>, before: seq<Task>, elapsed: int)
    ensures Gathered(records, [], [], before, elapsed, 0)
  {
    assert [] + DueFrom(before, elapsed, 0) == DueFrom(before, elapsed, 0);
  }

  lemma GatherStep<T>(records: seq<T>, due: seq<T>, places: seq<nat>, before: seq<Task>, elapsed: int, i: nat)
    requires i < |records| == |before| && Gathered(records, due, places, before, elapsed, i)
    ensures if Due(before[i], elapsed) then Gathered(records, due + [records[i]], places + [i], before, elapsed, i + 1)
            else Gathered(records, due, places, before, elapsed, i + 1)
  {
  }

  lemma RunStep(s: State, places: seq<nat>, effects: nat -> Effect, fired: seq<nat>)
    requires Places(places, 0, |s.tasks|) && places != []
    ensures RunAll(s, places, effects) == RunAll(RunOne(s, places[0], effects), places[1..], effects)
    ensures fired + Ran(s, places, effects)
         == fired + (if s.tasks[places[0]].cancelled then [] else [s.tasks[places[0]].id])
            + Ran(RunOne(s, places[0], effects), places[1..], effects)
  {
    Sequences.Regroup(fired, if s.tasks[places[0]].cancelled then [] else [s.tasks[places[0]].id],
                      Ran(RunOne(s, places[0], effects), places[1..], effects));
  }

  lemma RemainingStep(before: seq<Task>, tasks: seq<Task>, i: nat)
    requires i < |tasks|
    ensures before + Remaining(tasks[i..])
         == before + (if tasks[i].cancelled then [] else [tasks[i]]) + Remaining(tasks[i + 1..])
  {
    assert tasks[i..][1..] == tasks[i + 1..];
  }

  lemma ValuesAppend(records: seq<TaskRecord>, t: TaskRecord)
    ensures Values(records + [t]) == Values(records) + [t.Value()]
  {
  }

  /** Marking the record at the first place with the id is `CancelFirst`. */
  lemma {:induction false} CancelFirstAt(tasks: seq<Task>, id: nat, i: nat)
    requires i <= |tasks| && forall k :: 0 <= k < i ==> tasks[k].id != id
    requires i < |tasks| ==> tasks[i].id == id
    ensures CancelFirst(tasks, id) == if i < |tasks| then tasks[i := tasks[i].(cancelled := true)] else tasks
    decreases |tasks|
  {
    if tasks != [] && i > 0 {
      CancelFirstAt(tasks[1..], id, i - 1);
      assert tasks == [tasks[0]] + tasks[1..];
    }
  }
}
