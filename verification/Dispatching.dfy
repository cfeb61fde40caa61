/** `event::PriorityEventDispatcher`: an index of listeners by priority, kept up to date one listener
    at a time beside the list that is called. */
module Dispatching {

  /** An `int8_t`; smaller is earlier. */
  type Priority = p: int | -128 <= p <= 127
  const HIGHEST: Priority := -128

  datatype Registration = Registration(handle: nat, priority: Priority, callback: nat)

  // ----- the order by definition -----

  /** The registrations of one priority, in the order they came in. */
  function Bucket(live: seq<Registration>, p: int): (r: seq<Registration>)
    ensures forall k :: 0 <= k < |r| ==> r[k].priority == p
  {
    if live == [] then []
    else (if live[0].priority == p then [live[0]] else []) + Bucket(live[1..], p)
  }

  predicate Sorted(order: seq<Registration>) {
    forall i, j :: 0 <= i < j < |order| ==> order[i].priority <= order[j].priority
  }

  /** By priority, and within each priority the same registrations in the order they came in. */
  ghost predicate StablySorted(order: seq<Registration>, live: seq<Registration>) {
    Sorted(order) && forall p :: Bucket(order, p) == Bucket(live, p)
  }

  lemma {:induction false} BucketOfNone(list: seq<Registration>, p: int)
    requires forall k :: 0 <= k < |list| ==> list[k].priority != p
    ensures Bucket(list, p) == []
  {
    if list == [] {
    } else {
      BucketOfNone(list[1..], p);
    }
  }

  lemma HeadBucket(list: seq<Registration>)
    requires list != []
    ensures Bucket(list, list[0].priority) == [list[0]] + Bucket(list[1..], list[0].priority)
    ensures forall p :: p != list[0].priority ==> Bucket(list, p) == Bucket(list[1..], p)
  {
  }

  lemma FirstIsLeast(a: seq<Registration>, b: seq<Registration>)
    requires Sorted(a) && a != [] && forall p :: Bucket(a, p) == Bucket(b, p)
    ensures b != [] && a[0].priority <= b[0].priority
  {
    HeadBucket(a);
    assert Bucket(b, a[0].priority) != [];
    HeadBucket(b);
    if b[0].priority < a[0].priority {
      BucketOfNone(a, b[0].priority);
    }
  }

  /** There is only one such order. */
  lemma {:induction false} StableSortIsUnique(a: seq<Registration>, b: seq<Registration>)
    requires Sorted(a) && Sorted(b) && forall p :: Bucket(a, p) == Bucket(b, p)
    ensures a == b
    decreases |a|
  {
    if a == [] {
      if b != [] {
        FirstIsLeast(b, a);
      }
    } else {
      FirstIsLeast(a, b);
      FirstIsLeast(b, a);
      HeadBucket(a);
      HeadBucket(b);
      var p := a[0].priority;
      assert Bucket(a, p)[0] == a[0] && Bucket(b, p)[0] == b[0];
      forall q ensures Bucket(a[1..], q) == Bucket(b[1..], q) {
        if q == p {
          assert Bucket(a, p)[1..] == Bucket(a[1..], p) && Bucket(b, p)[1..] == Bucket(b[1..], p);
        } else {
          assert Bucket(a, q) == Bucket(b, q);
        }
      }
      StableSortIsUnique(a[1..], b[1..]);
      assert a == [a[0]] + a[1..] && b == [b[0]] + b[1..];
    }
  }

  // ----- the order as it is maintained -----

  /** The place of the first entry with a larger priority. */
  function PlaceFor(order: seq<Registration>, p: Priority): (k: nat)
    ensures k <= |order| && (k < |order| ==> order[k].priority > p)
    ensures forall i :: 0 <= i < k ==> order[i].priority <= p
  {
    if order == [] || order[0].priority > p then 0 else 1 + PlaceFor(order[1..], p)
  }

  function Insert(order: seq<Registration>, r: Registration): seq<Registration> {
    var k := PlaceFor(order, r.priority);
    order[..k] + [r] + order[k..]
  }

  function Without(list: seq<Registration>, handle: nat): (r: seq<Registration>)
    ensures forall k :: 0 <= k < |r| ==> r[k] in list && r[k].handle != handle
  {
    if list == [] then []
    else (if list[0].handle == handle then [] else [list[0]]) + Without(list[1..], handle)
  }

  // ----- they agree after one step -----

  lemma {:induction false} BucketConcat(a: seq<Registration>, b: seq<Registration>, p: int)
    ensures Bucket(a + b, p) == Bucket(a, p) + Bucket(b, p)
  {
    if a == [] {
      assert a + b == b;
    } else {
      assert (a + b)[1..] == a[1..] + b;
      BucketConcat(a[1..], b, p);
    }
  }

  lemma BucketAppend(live: seq<Registration>, r: Registration, p: int)
    ensures Bucket(live + [r], p) == Bucket(live, p) + (if r.priority == p then [r] else [])
  {
    BucketConcat(live, [r], p);
  }

  lemma BucketOfInsert(before: seq<Registration>, r: Registration, after: seq<Registration>, p: int)
    requires forall k :: 0 <= k < |after| ==> after[k].priority > r.priority
    ensures Bucket(before + [r] + after, p) == Bucket(before + after, p) + (if r.priority == p then [r] else [])
  {
    BucketAppend(before, r, p);
    BucketConcat(before + [r], after, p);
    BucketConcat(before, after, p);
    if r.priority == p {
      BucketOfNone(after, p);
    }
  }

  lemma InsertKeepsSorted(order: seq<Registration>, r: Registration)
    requires Sorted(order)
    ensures Sorted(Insert(order, r))
  {
    var k := PlaceFor(order, r.priority);
    assert forall i :: k <= i < |order| ==> r.priority < order[i].priority by {
      assert forall i :: k < i < |order| ==> order[k].priority <= order[i].priority;
    }
    SortedInsert(order[..k], r, order[k..]);
  }

  lemma SortedInsert(before: seq<Registration>, r: Registration, after: seq<Registration>)
    requires Sorted(before) && Sorted(after)
    requires forall i :: 0 <= i < |before| ==> before[i].priority <= r.priority
    requires forall i :: 0 <= i < |after| ==> r.priority <= after[i].priority
    ensures Sorted(before + [r] + after)
  {
  }

  lemma InsertSorts(order: seq<Registration>, live: seq<Registration>, r: Registration)
    requires StablySorted(order, live)
    ensures StablySorted(Insert(order, r), live + [r])
  {
    InsertKeepsSorted(order, r);
    forall p ensures Bucket(Insert(order, r), p) == Bucket(live + [r], p) {
      BucketOfOrder(order, r, p);
      BucketAppend(live, r, p);
    }
  }

  lemma BucketOfOrder(order: seq<Registration>, r: Registration, p: int)
    requires Sorted(order)
    ensures Bucket(Insert(order, r), p) == Bucket(order, p) + (if r.priority == p then [r] else [])
  {
    var k := PlaceFor(order, r.priority);
    var before, after := order[..k], order[k..];
    LargerAfterPlace(order, r.priority);
    BucketOfInsert(before, r, after, p);
    assert order == before + after;
    assert Insert(order, r) == before + [r] + after;
  }

  lemma LargerAfterPlace(order: seq<Registration>, p: Priority)
    requires Sorted(order)
    ensures var after := order[PlaceFor(order, p)..]; forall i :: 0 <= i < |after| ==> after[i].priority > p
  {
    var k := PlaceFor(order, p);
    forall i | k <= i < |order| ensures order[i].priority > p {
      assert i == k || order[k].priority <= order[i].priority;
    }
  }

  lemma {:induction false} WithoutConcat(a: seq<Registration>, b: seq<Registration>, handle: nat)
    ensures Without(a + b, handle) == Without(a, handle) + Without(b, handle)
  {
    if a == [] {
      assert a + b == b;
    } else {
      assert (a + b)[1..] == a[1..] + b;
      WithoutConcat(a[1..], b, handle);
    }
  }

  lemma {:induction false} BucketWithout(live: seq<Registration>, handle: nat, p: int)
    ensures Bucket(Without(live, handle), p) == Without(Bucket(live, p), handle)
  {
    if live == [] {
    } else {
      BucketWithout(live[1..], handle, p);
      BucketConcat(if live[0].handle == handle then [] else [live[0]], Without(live[1..], handle), p);
      WithoutConcat(if live[0].priority == p then [live[0]] else [], Bucket(live[1..], p), handle);
    }
  }

  lemma {:induction false} WithoutKeepsSorted(order: seq<Registration>, handle: nat)
    requires Sorted(order)
    ensures Sorted(Without(order, handle))
  {
    if order == [] {
    } else {
      WithoutKeepsSorted(order[1..], handle);
      var rest := Without(order[1..], handle);
      forall k | 0 <= k < |rest| ensures order[0].priority <= rest[k].priority {
        var j :| 0 <= j < |order[1..]| && order[1..][j] == rest[k];
      }
    }
  }

  lemma WithoutSorts(order: seq<Registration>, live: seq<Registration>, handle: nat)
    requires StablySorted(order, live)
    ensures StablySorted(Without(order, handle), Without(live, handle))
  {
    WithoutKeepsSorted(order, handle);
    forall p ensures Bucket(Without(order, handle), p) == Bucket(Without(live, handle), p) {
      BucketWithout(order, handle, p);
      BucketWithout(live, handle, p);
    }
  }

  // ----- runs -----

  datatype Op = Append(event: nat, priority: Priority, callback: nat) | Remove(event: nat, handle: nat)

  /** The lists of all events, and the next handle. */
  datatype Table = Table(lists: map<nat, seq<Registration>>, next: nat)

  function Of(t: Table, event: nat): seq<Registration> {
    if event in t.lists then t.lists[event] else []
  }

  function Set(t: Table, event: nat, list: seq<Registration>): Table {
    t.(lists := t.lists[event := list])
  }

  /** What the dispatcher does. */
  function Step(t: Table, op: Op): Table {
    match op
    case Append(event, p, c) => Set(t, event, Insert(Of(t, event), Registration(t.next, p, c))).(next := t.next + 1)
    case Remove(event, h) => Set(t, event, Without(Of(t, event), h))
  }

  /** The live registrations in the order they came in. */
  function Register(t: Table, op: Op): Table {
    match op
    case Append(event, p, c) => Set(t, event, Of(t, event) + [Registration(t.next, p, c)]).(next := t.next + 1)
    case Remove(event, h) => Set(t, event, Without(Of(t, event), h))
  }

  function After(t: Table, ops: seq<Op>): Table
    decreases |ops|
  {
    if ops == [] then t else After(Step(t, ops[0]), ops[1..])
  }

  function Registered(t: Table, ops: seq<Op>): Table
    decreases |ops|
  {
    if ops == [] then t else Registered(Register(t, ops[0]), ops[1..])
  }

  const EMPTY := Table(map[], 0)

  ghost predicate Agrees(order: Table, live: Table) {
    order.next == live.next && forall event :: StablySorted(Of(order, event), Of(live, event))
  }

  lemma StepAgrees(order: Table, live: Table, op: Op)
    requires Agrees(order, live)
    ensures Agrees(Step(order, op), Register(live, op))
  {
    forall event ensures StablySorted(Of(Step(order, op), event), Of(Register(live, op), event)) {
      assert StablySorted(Of(order, event), Of(live, event));
      match op {
        case Append(_, p, c) => InsertSorts(Of(order, event), Of(live, event), Registration(live.next, p, c));
        case Remove(_, h) => WithoutSorts(Of(order, event), Of(live, event), h);
      }
    }
  }

  lemma {:induction false} RunAgrees(order: Table, live: Table, ops: seq<Op>)
    requires Agrees(order, live)
    ensures Agrees(After(order, ops), Registered(live, ops))
    decreases |ops|
  {
    if ops == [] {
    } else {
      StepAgrees(order, live, ops[0]);
      RunAgrees(Step(order, ops[0]), Register(live, ops[0]), ops[1..]);
    }
  }

  // ----- which registrations are live -----

  function Appends(ops: seq<Op>): nat
    decreases |ops|
  {
    if ops == [] then 0 else Appends(ops[..|ops| - 1]) + if ops[|ops| - 1].Append? then 1 else 0
  }

  /** Call `k` made the registration, its handle being the number of appends before, and no later call
      removed it. */
  ghost predicate IsLive(ops: seq<Op>, event: nat, r: Registration, k: nat) {
    && k < |ops| && ops[k] == Append(event, r.priority, r.callback) && r.handle == Appends(ops[..k])
    && forall m :: k < m < |ops| ==> ops[m] != Remove(event, r.handle)
  }

  lemma {:induction false} RegisteredLast(t: Table, ops: seq<Op>, op: Op)
    ensures Registered(t, ops + [op]) == Register(Registered(t, ops), op)
    decreases |ops|
  {
    if ops == [] {
      assert ([op])[1..] == [];
    } else {
      assert (ops + [op])[1..] == ops[1..] + [op];
      RegisteredLast(Register(t, ops[0]), ops[1..], op);
    }
  }

  predicate InArrivalOrder(list: seq<Registration>, next: nat) {
    && (forall k :: 0 <= k < |list| ==> list[k].handle < next)
    && (forall i, j :: 0 <= i < j < |list| ==> list[i].handle < list[j].handle)
  }

  lemma {:induction false} WithoutIsExact(list: seq<Registration>, handle: nat)
    ensures forall r :: r in Without(list, handle) <==> r in list && r.handle != handle
  {
    if list == [] {
    } else {
      WithoutIsExact(list[1..], handle);
      assert list == [list[0]] + list[1..];
    }
  }

  lemma {:induction false} WithoutInArrivalOrder(list: seq<Registration>, handle: nat, next: nat)
    requires InArrivalOrder(list, next)
    ensures InArrivalOrder(Without(list, handle), next)
  {
    if list == [] {
    } else {
      var first, rest := list[0], list[1..];
      TailInArrivalOrder(list, next);
      WithoutInArrivalOrder(rest, handle, next);
      if first.handle == handle {
        assert [] + Without(rest, handle) == Without(rest, handle);
      } else {
        WithoutIsExact(rest, handle);
        ConsInArrivalOrder(first, Without(rest, handle), next);
      }
    }
  }

  lemma TailInArrivalOrder(list: seq<Registration>, next: nat)
    requires InArrivalOrder(list, next) && list != []
    ensures InArrivalOrder(list[1..], next) && list[0].handle < next
    ensures forall r :: r in list[1..] ==> list[0].handle < r.handle
  {
  }

  lemma ConsInArrivalOrder(first: Registration, rest: seq<Registration>, next: nat)
    requires InArrivalOrder(rest, next) && first.handle < next
    requires forall r :: r in rest ==> first.handle < r.handle
    ensures InArrivalOrder([first] + rest, next)
  {
  }

  /** The live registrations of an event: those made and not removed, in the order they came in. */
  lemma {:induction false} LiveIff(ops: seq<Op>, event: nat)
    ensures Registered(EMPTY, ops).next == Appends(ops)
    ensures InArrivalOrder(Of(Registered(EMPTY, ops), event), Appends(ops))
    ensures forall r :: r in Of(Registered(EMPTY, ops), event) <==> exists k: nat :: IsLive(ops, event, r, k)
    decreases |ops|
  {
    if ops == [] {
    } else {
      var before, op := ops[..|ops| - 1], ops[|ops| - 1];
      assert ops == before + [op];
      LiveIff(before, event);
      RegisteredLast(EMPTY, before, op);
      var live := Registered(EMPTY, before);
      RegisterIsExact(live, op, event);
      forall r
        ensures r in Of(Registered(EMPTY, ops), event) <==> exists k: nat :: IsLive(ops, event, r, k)
      {
        LiveStep(before, op, event, r);
      }
    }
  }

  lemma RegisterIsExact(live: Table, op: Op, event: nat)
    requires InArrivalOrder(Of(live, event), live.next)
    ensures var next := Register(live, op);
      && next.next == live.next + (if op.Append? then 1 else 0)
      && InArrivalOrder(Of(next, event), next.next)
      && forall r :: r in Of(next, event) <==>
           || (r in Of(live, event) && op != Remove(event, r.handle))
           || (op == Append(event, r.priority, r.callback) && r.handle == live.next)
  {
    match op
    case Append(e, p, c) =>
    case Remove(e, h) =>
      WithoutIsExact(Of(live, event), h);
      WithoutInArrivalOrder(Of(live, event), h, live.next);
  }

  lemma LiveStep(ops: seq<Op>, op: Op, event: nat, r: Registration)
    ensures (exists k: nat :: IsLive(ops + [op], event, r, k))
       <==> || ((exists k: nat :: IsLive(ops, event, r, k)) && op != Remove(event, r.handle))
            || (op == Append(event, r.priority, r.callback) && r.handle == Appends(ops))
  {
    var all := ops + [op];
    if k: nat :| IsLive(all, event, r, k) {
      assert all[..k] == if k < |ops| then ops[..k] else ops;
      if k < |ops| {
        assert all[|ops|] == op && ops[k] == all[k];
        assert forall m :: k < m < |ops| ==> ops[m] == all[m];
        assert IsLive(ops, event, r, k);
      }
    }
    if op != Remove(event, r.handle) {
      if k: nat :| IsLive(ops, event, r, k) {
        assert all[..k] == ops[..k];
        assert IsLive(all, event, r, k);
      }
    }
    if op == Append(event, r.priority, r.callback) && r.handle == Appends(ops) {
      assert all[..|ops|] == ops;
      assert IsLive(all, event, r, |ops|);
    }
  }

  // ----- dispatch -----

  /** The listeners called for an event, which may be cancelled already: up to and with the first after
      which it is. */
  function Invoked(list: seq<Registration>, canceled: bool, cancels: nat -> bool): (r: seq<Registration>)
    ensures r <= list
  {
    if list == [] then []
    else if canceled || cancels(list[0].callback) then [list[0]]
    else [list[0]] + Invoked(list[1..], canceled, cancels)
  }

  lemma {:induction false} InvokedIsExact(list: seq<Registration>, canceled: bool, cancels: nat -> bool)
    ensures var n := |Invoked(list, canceled, cancels)|;
            && (canceled ==> n == if list == [] then 0 else 1)
            && (forall k :: 0 <= k < n - 1 ==> !cancels(list[k].callback))
            && (!canceled && n < |list| ==> n > 0 && cancels(list[n - 1].callback))
  {
    if list == [] || canceled || cancels(list[0].callback) {
    } else {
      InvokedIsExact(list[1..], canceled, cancels);
      assert forall k :: 0 < k < |list| ==> list[k] == list[1..][k - 1];
    }
  }

  lemma OrderAfter(ops: seq<Op>, event: nat)
    ensures StablySorted(Of(After(EMPTY, ops), event), Of(Registered(EMPTY, ops), event))
  {
    RunAgrees(EMPTY, EMPTY, ops);
  }

  /** After any run of appends, prepends and removals, the list of an event is the stable sort of its
      live registrations, and dispatching the event calls them in that order, up to and with the first
      that cancels it; an event that is cancelled already goes to the first one only. */
  lemma DispatchOrder(ops: seq<Op>, event: nat, canceled: bool, cancels: nat -> bool, order: seq<Registration>)
    requires StablySorted(order, Of(Registered(EMPTY, ops), event))
    ensures Of(After(EMPTY, ops), event) == order
    ensures var called := Invoked(Of(After(EMPTY, ops), event), canceled, cancels);
            && called <= order
            && (canceled ==> |called| == if order == [] then 0 else 1)
            && (forall k :: 0 <= k < |called| - 1 ==> !cancels(order[k].callback))
            && (!canceled && |called| < |order| ==> |called| > 0 && cancels(order[|called| - 1].callback))
  {
    OrderAfter(ops, event);
    StableSortIsUnique(Of(After(EMPTY, ops), event), order);
    InvokedIsExact(order, canceled, cancels);
  }

  // ----- the dispatcher -----

  datatype Entry = Entry(priority: Priority, handle: nat)
  datatype Listener = Listener(handle: nat, callback: nat)

  function Entries(list: seq<Registration>): (r: seq<Entry>)
    ensures |r| == |list| && forall k :: 0 <= k < |r| ==> r[k] == Entry(list[k].priority, list[k].handle)
  {
    seq(|list|, k requires 0 <= k < |list| => Entry(list[k].priority, list[k].handle))
  }

  function Listeners(list: seq<Registration>): (r: seq<Listener>)
    ensures |r| == |list| && forall k :: 0 <= k < |r| ==> r[k] == Listener(list[k].handle, list[k].callback)
  {
    seq(|list|, k requires 0 <= k < |list| => Listener(list[k].handle, list[k].callback))
  }

  predicate FreshHandles(list: seq<Registration>, next: nat) {
    && (forall k :: 0 <= k < |list| ==> list[k].handle < next)
    && (forall i, j :: 0 <= i < j < |list| ==> list[i].handle != list[j].handle)
  }

  /** The new listener stands at `k`, before the first one whose priority is larger; so does its entry. */
  predicate GoesInAt(entries: seq<Entry>, listeners: seq<Listener>, entries': seq<Entry>, listeners': seq<Listener>,
                     priority: Priority, listener: Listener, k: nat)
  {
    && k <= |entries| == |listeners|
    && entries' == entries[..k] + [Entry(priority, listener.handle)] + entries[k..]
    && listeners' == listeners[..k] + [listener] + listeners[k..]
    && (forall i :: 0 <= i < k ==> entries[i].priority <= priority)
    && (k < |entries| ==> entries[k].priority > priority)
  }

  /** The listener with the handle, which stood at `k`, is gone; so is its entry. */
  predicate IsCutAt(entries: seq<Entry>, listeners: seq<Listener>, entries': seq<Entry>, listeners': seq<Listener>,
                    handle: nat, k: nat)
  {
    && k < |entries| == |listeners| && listeners[k].handle == handle
    && entries' == entries[..k] + entries[k + 1..]
    && listeners' == listeners[..k] + listeners[k + 1..]
  }

  /** The lists of one event type: the entries that `handles_` has and the listeners that the base
      dispatcher calls. */
  class EventListeners {
    var entries: seq<Entry>
    var listeners: seq<Listener>
    ghost var order: seq<Registration>

    constructor ()
      ensures Valid(0) && order == []
    {
      entries, listeners, order := [], [], [];
    }

    ghost predicate Valid(next: nat)
      reads this
    {
      entries == Entries(order) && listeners == Listeners(order) && FreshHandles(order, next)
    }

    /** `next` is the handle that the base dispatcher gives out. */
    method AppendListener(priority: Priority, callback: nat, next: nat) returns (handle: nat)
      requires Valid(next)
      modifies this
      ensures handle == next && Valid(next + 1)
      ensures order == Insert(old(order), Registration(next, priority, callback))
      ensures exists k ::
        GoesInAt(old(entries), old(listeners), entries, listeners, priority, Listener(next, callback), k)
    {
      handle := next;
      var k := PlaceOf(priority);
      ghost var r := Registration(next, priority, callback);
      InsertIsFresh(order, r, k);
      InsertIntoBase(Listener(handle, callback), k, next);
      entries := entries[..k] + [Entry(priority, handle)] + entries[k..];
      EntriesInsert(order, r, k);
      order := Insert(order, r);
      assert GoesInAt(old(entries), old(listeners), entries, listeners, priority, Listener(next, callback), k);
    }

    /** Before the listener of the entry at the place, or at the end. */
    method InsertIntoBase(listener: Listener, k: nat, ghost next: nat)
      requires Valid(next) && k <= |entries|
      modifies this`listeners
      ensures listeners == old(listeners[..k] + [listener] + listeners[k..])
    {
      if k < |entries| {
        InsertListener(listener, entries[k].handle, k);
      } else {
        listeners := listeners + [listener];
      }
    }

    /** The loop over the entries. */
    method PlaceOf(priority: Priority) returns (k: nat)
      requires entries == Entries(order)
      ensures k == PlaceFor(order, priority)
    {
      k := 0;
      while k < |entries| && entries[k].priority <= priority
        invariant k <= |entries| && forall i :: 0 <= i < k ==> entries[i].priority <= priority
      {
        k := k + 1;
      }
      PlaceIs(order, priority, k);
    }

    /** The base dispatcher's insertion before the listener with a handle. */
    method InsertListener(listener: Listener, before: nat, ghost k: nat)
      requires k < |listeners| && listeners[k].handle == before
      requires forall i :: 0 <= i < k ==> listeners[i].handle != before
      modifies this`listeners
      ensures listeners == old(listeners[..k] + [listener] + listeners[k..])
    {
      var i := 0;
      while listeners[i].handle != before
        invariant i <= k
        decreases k - i
      {
        i := i + 1;
      }
      listeners := listeners[..i] + [listener] + listeners[i..];
    }

    method PrependListener(callback: nat, next: nat) returns (handle: nat)
      requires Valid(next)
      modifies this
      ensures handle == next && Valid(next + 1)
      ensures order == Insert(old(order), Registration(next, HIGHEST, callback))
      ensures exists k :: GoesInAt(old(entries), old(listeners), entries, listeners, -128, Listener(next, callback), k)
    {
      handle := AppendListener(HIGHEST, callback, next);
    }

    method RemoveListener(handle: nat, ghost next: nat) returns (removed: bool)
      requires Valid(next)
      modifies this
      ensures Valid(next) && order == Without(old(order), handle)
      ensures removed == (Without(old(order), handle) != old(order))
      ensures removed <==> exists l :: l in old(listeners) && l.handle == handle
      ensures if removed then exists k :: IsCutAt(old(entries), old(listeners), entries, listeners, handle, k)
              else entries == old(entries) && listeners == old(listeners)
    {
      var kept := Erased(handle);
      EntriesWithout(order, handle);
      WithoutIsFresh(order, handle, next);
      removed := RemoveFromBase(handle, next);
      entries := kept;
      WithoutIsCut(order, handle, next);
      order := Without(order, handle);
    }

    /** `std::erase_if` on the entries. */
    method Erased(handle: nat) returns (kept: seq<Entry>)
      ensures kept == EntriesLeft(entries, handle)
    {
      kept := [];
      var k := 0;
      while k < |entries|
        invariant k <= |entries| && kept + EntriesLeft(entries[k..], handle) == EntriesLeft(entries, handle)
      {
        EraseStep(kept, entries, handle, k);
        if entries[k].handle != handle {
          kept := kept + [entries[k]];
        }
        k := k + 1;
      }
    }

    /** The base dispatcher removes the listener with the handle, if there is one. */
    method RemoveFromBase(handle: nat, ghost next: nat) returns (removed: bool)
      requires listeners == Listeners(order) && FreshHandles(order, next)
      modifies this`listeners
      ensures listeners == Listeners(Without(order, handle))
      ensures removed == (Without(order, handle) != order)
    {
      var k := Find(handle);
      removed := k < |listeners|;
      WithoutAt(order, handle, k, next);
      assert removed ==> |Without(order, handle)| < |order|;
      if removed {
        ListenersRemove(order, k);
        listeners := listeners[..k] + listeners[k + 1..];
      }
    }

    method Find(handle: nat) returns (k: nat)
      ensures k <= |listeners| && (k < |listeners| ==> listeners[k].handle == handle)
      ensures forall i :: 0 <= i < k ==> listeners[i].handle != handle
    {
      k := 0;
      while k < |listeners| && listeners[k].handle != handle
        invariant k <= |listeners| && forall i :: 0 <= i < k ==> listeners[i].handle != handle
      {
        k := k + 1;
      }
    }

    /** Calls the listeners for an event, which may be cancelled already; `cancels` says which
        callbacks cancel it. Returns those called. */
    method Dispatch(canceled: bool, cancels: nat -> bool, ghost next: nat) returns (called: seq<Listener>)
      requires Valid(next)
      ensures called == Listeners(Invoked(order, canceled, cancels))
      ensures called <= listeners
      ensures canceled ==> |called| == if listeners == [] then 0 else 1
      ensures !canceled ==> forall i :: 0 <= i < |called| - 1 ==> !cancels(called[i].callback)
      ensures !canceled && |called| < |listeners| ==> |called| > 0 && cancels(called[|called| - 1].callback)
    {
      var k := CallEach(canceled, cancels);
      called := listeners[..k];
      InvokedIs(order, canceled, cancels, k);
      assert called == Listeners(order[..k]);
    }

    /** The loop: whether to go on is asked after each call. Returns the number of listeners called. */
    method CallEach(canceled: bool, cancels: nat -> bool) returns (k: nat)
      ensures k <= |listeners|
      ensures canceled ==> k == if listeners == [] then 0 else 1
      ensures forall i :: 0 <= i < k - 1 ==> !cancels(listeners[i].callback)
      ensures !canceled && k < |listeners| ==> k > 0 && cancels(listeners[k - 1].callback)
    {
      k := 0;
      var isCanceled, goOn := canceled, true;
      while k < |listeners| && goOn
        invariant k <= |listeners| && (canceled ==> k <= 1)
        invariant forall i :: 0 <= i < k - 1 ==> !cancels(listeners[i].callback)
        invariant goOn == (k == 0 || (!canceled && !cancels(listeners[k - 1].callback)))
        invariant isCanceled == (canceled || !goOn)
      {
        isCanceled := isCanceled || cancels(listeners[k].callback);
        goOn := !isCanceled;
        k := k + 1;
      }
    }
  }

  lemma EraseStep(kept: seq<Entry>, entries: seq<Entry>, handle: nat, k: nat)
    requires k < |entries|
    ensures kept + EntriesLeft(entries[k..], handle)
         == kept + (if entries[k].handle == handle then [] else [entries[k]]) + EntriesLeft(entries[k + 1..], handle)
  {
    assert entries[k..][1..] == entries[k + 1..];
  }

  lemma ListenersRemove(list: seq<Registration>, k: nat)
    requires k < |list|
    ensures Listeners(list)[..k] + Listeners(list)[k + 1..] == Listeners(list[..k] + list[k + 1..])
  {
  }

  function EntriesLeft(entries: seq<Entry>, handle: nat): seq<Entry> {
    if entries == [] then []
    else (if entries[0].handle == handle then [] else [entries[0]]) + EntriesLeft(entries[1..], handle)
  }

  lemma {:induction false} EntriesWithout(list: seq<Registration>, handle: nat)
    ensures EntriesLeft(Entries(list), handle) == Entries(Without(list, handle))
  {
    if list == [] {
    } else {
      var r, rest := list[0], list[1..];
      EntriesWithout(rest, handle);
      assert list == [r] + rest;
      EntriesCons(r, rest);
      EntriesCons(r, Without(rest, handle));
      EntriesLeftCons(Entry(r.priority, r.handle), Entries(rest), handle);
    }
  }

  lemma EntriesCons(r: Registration, rest: seq<Registration>)
    ensures Entries([r] + rest) == [Entry(r.priority, r.handle)] + Entries(rest)
  {
  }

  lemma EntriesLeftCons(e: Entry, rest: seq<Entry>, handle: nat)
    ensures EntriesLeft([e] + rest, handle) == (if e.handle == handle then [] else [e]) + EntriesLeft(rest, handle)
  {
    assert ([e] + rest)[1..] == rest;
  }

  lemma ListHas(list: seq<Registration>, handle: nat)
    ensures (exists l :: l in Listeners(list) && l.handle == handle)
       <==> exists k :: 0 <= k < |list| && list[k].handle == handle
  {
    if k: nat :| k < |list| && list[k].handle == handle {
      assert Listeners(list)[k] in Listeners(list);
    }
  }

  lemma EntriesRemove(list: seq<Registration>, k: nat)
    requires k < |list|
    ensures Entries(list)[..k] + Entries(list)[k + 1..] == Entries(list[..k] + list[k + 1..])
  {
  }

  lemma CutAt(list: seq<Registration>, k: nat)
    requires k < |list|
    ensures var rest := list[..k] + list[k + 1..];
      rest != list && IsCutAt(Entries(list), Listeners(list), Entries(rest), Listeners(rest), list[k].handle, k)
  {
    EntriesRemove(list, k);
    ListenersRemove(list, k);
    assert |list[..k] + list[k + 1..]| < |list|;
  }

  lemma WithoutIsCut(list: seq<Registration>, handle: nat, next: nat)
    requires FreshHandles(list, next)
    ensures Without(list, handle) != list <==> exists l :: l in Listeners(list) && l.handle == handle
    ensures var rest := Without(list, handle);
      rest != list ==>
        exists k :: IsCutAt(Entries(list), Listeners(list), Entries(rest), Listeners(rest), handle, k)
  {
    ListHas(list, handle);
    if k: nat :| k < |list| && list[k].handle == handle {
      WithoutAt(list, handle, k, next);
      CutAt(list, k);
    } else {
      WithoutAbsent(list, handle);
    }
  }

  lemma WithoutMiddle(a: seq<Registration>, r: Registration, b: seq<Registration>)
    requires forall i :: 0 <= i < |a| ==> a[i].handle != r.handle
    requires forall i :: 0 <= i < |b| ==> b[i].handle != r.handle
    ensures Without(a + [r] + b, r.handle) == a + b
  {
    WithoutAbsent(a, r.handle);
    WithoutAbsent(b, r.handle);
    WithoutConcat(a, [r], r.handle);
    WithoutConcat(a + [r], b, r.handle);
    assert Without([r], r.handle) == [];
    assert a + [] == a;
  }

  lemma WithoutAt(list: seq<Registration>, handle: nat, k: nat, next: nat)
    requires FreshHandles(list, next) && k <= |list| && (k < |list| ==> list[k].handle == handle)
    requires forall i :: 0 <= i < k ==> list[i].handle != handle
    ensures Without(list, handle) == if k < |list| then list[..k] + list[k + 1..] else list
  {
    if k == |list| {
      WithoutAbsent(list, handle);
    } else {
      assert list == list[..k] + [list[k]] + list[k + 1..];
      WithoutMiddle(list[..k], list[k], list[k + 1..]);
    }
  }

  lemma {:induction false} WithoutAbsent(list: seq<Registration>, handle: nat)
    requires forall i :: 0 <= i < |list| ==> list[i].handle != handle
    ensures Without(list, handle) == list
  {
    if list == [] {
    } else {
      WithoutAbsent(list[1..], handle);
    }
  }

  lemma {:induction false} InvokedIs(list: seq<Registration>, canceled: bool, cancels: nat -> bool, n: nat)
    requires n <= |list| && (canceled ==> n == if list == [] then 0 else 1)
    requires forall i :: 0 <= i < n - 1 ==> !cancels(list[i].callback)
    requires !canceled && n < |list| ==> n > 0 && cancels(list[n - 1].callback)
    ensures Invoked(list, canceled, cancels) == list[..n]
  {
    if n > 1 {
      InvokedIs(list[1..], canceled, cancels, n - 1);
      assert list[..n] == [list[0]] + list[1..][..n - 1];
    }
  }

  lemma EntriesInsert(list: seq<Registration>, r: Registration, k: nat)
    requires k <= |list|
    ensures Entries(list)[..k] + [Entry(r.priority, r.handle)] + Entries(list)[k..]
         == Entries(list[..k] + [r] + list[k..])
    ensures Listeners(list)[..k] + [Listener(r.handle, r.callback)] + Listeners(list)[k..]
         == Listeners(list[..k] + [r] + list[k..])
  {
  }

  lemma InsertIsFresh(order: seq<Registration>, r: Registration, k: nat)
    requires FreshHandles(order, r.handle) && k <= |order|
    ensures FreshHandles(order[..k] + [r] + order[k..], r.handle + 1)
  {
  }

  lemma {:induction false} PlaceIs(order: seq<Registration>, p: Priority, k: nat)
    requires k <= |order| && (k < |order| ==> order[k].priority > p)
    requires forall i :: 0 <= i < k ==> order[i].priority <= p
    ensures PlaceFor(order, p) == k
  {
    if k > 0 {
      PlaceIs(order[1..], p, k - 1);
    }
  }

  lemma {:induction false} WithoutIsFresh(list: seq<Registration>, handle: nat, next: nat)
    requires FreshHandles(list, next)
    ensures FreshHandles(Without(list, handle), next)
  {
    if list == [] {
    } else {
      WithoutIsFresh(list[1..], handle, next);
      var rest := Without(list[1..], handle);
      forall k | 0 <= k < |rest| ensures rest[k].handle != list[0].handle && rest[k].handle < next {
        assert rest[k] in list[1..];
      }
    }
  }
}
