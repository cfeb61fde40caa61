/** `random_generator::sample`: selection sampling by a stable partition, whose predicate draws a
    number for each element and keeps count of what is still wanted. */
module Sampling {

  /** A draw for each call of the predicate, within `[0, total]` for the calls that come after it. */
  predicate InRange(draws: seq<nat>) {
    forall j :: 0 <= j < |draws| ==> draws[j] <= |draws| - 1 - j
  }

  /** What the predicate answers, call by call. */
  function Flags(toGo: int, draws: seq<nat>): (flags: seq<bool>)
    ensures |flags| == |draws|
  {
    if draws == [] then []
    else if draws[0] < toGo then [true] + Flags(toGo - 1, draws[1..])
    else [false] + Flags(toGo, draws[1..])
  }

  /** `calls[i]` is the number of the call on element `i`: the partition calls the predicate once on
      each element, in an order of its own. */
  predicate CallOrder(calls: seq<nat>) {
    && (forall i :: 0 <= i < |calls| ==> calls[i] < |calls|)
    && (forall i, k :: 0 <= i < k < |calls| ==> calls[i] != calls[k])
  }

  /** The answers, element by element. */
  function ByElement(answers: seq<bool>, calls: seq<nat>): (flags: seq<bool>)
    requires CallOrder(calls) && |answers| == |calls|
    ensures |flags| == |calls| && forall i :: 0 <= i < |calls| ==> flags[i] == answers[calls[i]]
  {
    seq(|calls|, i requires 0 <= i < |calls| => answers[calls[i]])
  }

  function Count(flags: seq<bool>): nat {
    if flags == [] then 0 else (if flags[0] then 1 else 0) + Count(flags[1..])
  }

  /** The elements whose flag is `wanted`, in their order. */
  function Keep<T>(items: seq<T>, flags: seq<bool>, wanted: bool): seq<T>
    requires |items| == |flags|
  {
    if items == [] then []
    else (if flags[0] == wanted then [items[0]] else []) + Keep(items[1..], flags[1..], wanted)
  }

  /** How many there are to select out of `n`. */
  function Wanted(toGo: int, n: nat): nat {
    if toGo <= 0 then 0 else if toGo <= n then toGo else n
  }

  // ----- the number selected -----

  /** Whatever is drawn, the predicate answers yes exactly the wanted number of times. */
  lemma {:induction false} AnswersExactly(toGo: int, draws: seq<nat>)
    requires InRange(draws)
    ensures Count(Flags(toGo, draws)) == Wanted(toGo, |draws|)
    decreases |draws|
  {
    if draws == [] {
    } else {
      var next := if draws[0] < toGo then toGo - 1 else toGo;
      AnswersExactly(next, draws[1..]);
      assert Flags(toGo, draws)[1..] == Flags(next, draws[1..]);
    }
  }

  /** Each call answers yes exactly when its draw is below what is still wanted. */
  lemma {:induction false} FlagsAt(toGo: int, draws: seq<nat>, j: nat)
    requires j < |draws|
    ensures Flags(toGo, draws)[j] <==> draws[j] < toGo - Count(Flags(toGo, draws)[..j])
    decreases |draws|
  {
    var flags := Flags(toGo, draws);
    if j > 0 {
      FlagsAt(if draws[0] < toGo then toGo - 1 else toGo, draws[1..], j - 1);
      assert flags[..j][1..] == flags[1..][..j - 1];
    }
  }

  /** The places with a given flag. */
  function PlacesOf(flags: seq<bool>, wanted: bool): set<nat> {
    set i: nat | i < |flags| && flags[i] == wanted
  }

  lemma {:induction false} CountIsPlaces(flags: seq<bool>)
    ensures Count(flags) == |PlacesOf(flags, true)|
    ensures |PlacesOf(flags, true)| + |PlacesOf(flags, false)| == |flags|
    decreases |flags|
  {
    if flags == [] {
      assert PlacesOf(flags, true) == {} && PlacesOf(flags, false) == {};
    } else {
      CountIsPlaces(flags[1..]);
      PlacesShift(flags, true);
      PlacesShift(flags, false);
    }
  }

  lemma PlacesShift(flags: seq<bool>, wanted: bool)
    requires flags != []
    ensures |PlacesOf(flags, wanted)| == |PlacesOf(flags[1..], wanted)| + if flags[0] == wanted then 1 else 0
  {
    var rest := PlacesOf(flags[1..], wanted);
    var shifted := set i | i in rest :: i + 1;
    SameSize(rest, shifted, i => i + 1);
    ShiftedPlaces(flags, wanted, shifted);
  }

  lemma ShiftedPlaces(flags: seq<bool>, wanted: bool, shifted: set<nat>)
    requires flags != [] && shifted == set i | i in PlacesOf(flags[1..], wanted) :: i + 1
    ensures PlacesOf(flags, wanted) == shifted + if flags[0] == wanted then {0} else {}
    ensures 0 !in shifted
  {
    forall i: nat ensures i in PlacesOf(flags, wanted) <==> i in shifted || (i == 0 && flags[0] == wanted) {
      if i > 0 && i < |flags| {
        assert flags[1..][i - 1] == flags[i];
        assert i - 1 in PlacesOf(flags[1..], wanted) <==> i in PlacesOf(flags, wanted);
      }
    }
  }

  lemma {:induction false} SameSize(s: set<nat>, t: set<nat>, f: nat -> nat)
    requires forall i, k :: i in s && k in s && f(i) == f(k) ==> i == k
    requires t == set i | i in s :: f(i)
    ensures |t| == |s|
    decreases |s|
  {
    if s == {} {
    } else {
      var i :| i in s;
      var less := set k | k in s - {i} :: f(k);
      SameSize(s - {i}, less, f);
      assert t == less + {f(i)};
    }
  }

  lemma {:induction false} SmallerSet(s: set<nat>, t: set<nat>)
    requires s <= t
    ensures |s| <= |t|
  {
    assert t == s + (t - s);
  }

  /** The elements with an answer are at most the calls with it. */
  lemma ElementsWithin(answers: seq<bool>, calls: seq<nat>, wanted: bool)
    requires CallOrder(calls) && |answers| == |calls|
    ensures |PlacesOf(ByElement(answers, calls), wanted)| <= |PlacesOf(answers, wanted)|
  {
    var elements := PlacesOf(ByElement(answers, calls), wanted);
    var f := (i: nat) => if i < |calls| then calls[i] else 0;
    var used := set i | i in elements :: f(i);
    SameSize(elements, used, f);
    SmallerSet(used, PlacesOf(answers, wanted));
  }

  /** As many elements are selected as calls answer yes, whatever the order of the calls. */
  lemma CountByElement(answers: seq<bool>, calls: seq<nat>)
    requires CallOrder(calls) && |answers| == |calls|
    ensures Count(ByElement(answers, calls)) == Count(answers)
  {
    ElementsWithin(answers, calls, true);
    ElementsWithin(answers, calls, false);
    CountIsPlaces(answers);
    CountIsPlaces(ByElement(answers, calls));
  }

  /** Whatever is drawn and in whatever order the elements are visited, exactly the wanted number of
      them is selected. */
  lemma SelectsExactly(toGo: int, draws: seq<nat>, calls: seq<nat>)
    requires InRange(draws) && CallOrder(calls) && |draws| == |calls|
    ensures Count(ByElement(Flags(toGo, draws), calls)) == Wanted(toGo, |calls|)
  {
    AnswersExactly(toGo, draws);
    CountByElement(Flags(toGo, draws), calls);
  }

  /** Draws that give certain answers: the least for a yes, the greatest for a no. */
  function DrawsFor(answers: seq<bool>): (draws: seq<nat>)
    ensures |draws| == |answers|
  {
    if answers == [] then [] else [if answers[0] then 0 else |answers| - 1] + DrawsFor(answers[1..])
  }

  lemma {:induction false} CountBound(flags: seq<bool>)
    ensures Count(flags) <= |flags|
  {
    if flags == [] {
    } else {
      CountBound(flags[1..]);
    }
  }

  lemma {:induction false} AnswersArePossible(toGo: int, answers: seq<bool>)
    requires Count(answers) == Wanted(toGo, |answers|)
    ensures InRange(DrawsFor(answers)) && Flags(toGo, DrawsFor(answers)) == answers
    decreases |answers|
  {
    if answers == [] {
    } else {
      CountBound(answers[1..]);
      AnswersArePossible(if answers[0] then toGo - 1 else toGo, answers[1..]);
      assert DrawsFor(answers)[1..] == DrawsFor(answers[1..]);
      assert answers == [answers[0]] + answers[1..];
    }
  }

  /** Every selection of the wanted number of elements is made by some draws, in any order of calls. */
  lemma EverySelectionIsPossible(toGo: int, flags: seq<bool>, calls: seq<nat>) returns (draws: seq<nat>)
    requires CallOrder(calls) && |flags| == |calls| && Count(flags) == Wanted(toGo, |flags|)
    ensures |draws| == |calls| && InRange(draws) && ByElement(Flags(toGo, draws), calls) == flags
  {
    var answers := seq(|calls|, j => exists i :: 0 <= i < |calls| && calls[i] == j && flags[i]);
    assert ByElement(answers, calls) == flags;
    CountByElement(answers, calls);
    AnswersArePossible(toGo, answers);
    draws := DrawsFor(answers);
  }

  // ----- what the range becomes -----

  lemma {:induction false} KeepCounts<T>(items: seq<T>, flags: seq<bool>)
    requires |items| == |flags|
    ensures |Keep(items, flags, true)| == Count(flags)
    ensures |Keep(items, flags, true)| + |Keep(items, flags, false)| == |items|
    ensures multiset(Keep(items, flags, true)) + multiset(Keep(items, flags, false)) == multiset(items)
  {
    if items == [] {
    } else {
      KeepCounts(items[1..], flags[1..]);
      assert items == [items[0]] + items[1..];
    }
  }

  /** The rearranged range: the selected elements, then the others, each in their order. */
  function Sampled<T>(items: seq<T>, flags: seq<bool>): seq<T>
    requires |flags| == |items|
  {
    Keep(items, flags, true) + Keep(items, flags, false)
  }

  lemma SampledIsAPermutation<T>(items: seq<T>, toGo: int, draws: seq<nat>, calls: seq<nat>)
    requires |draws| == |items| == |calls| && InRange(draws) && CallOrder(calls)
    ensures var flags := ByElement(Flags(toGo, draws), calls);
            && multiset(Sampled(items, flags)) == multiset(items)
            && |Keep(items, flags, true)| == Wanted(toGo, |items|)
  {
    KeepCounts(items, ByElement(Flags(toGo, draws), calls));
    SelectsExactly(toGo, draws, calls);
  }

  lemma {:induction false} KeepAt<T>(items: seq<T>, flags: seq<bool>, i: nat)
    requires i < |items| == |flags|
    ensures Count(flags[..i]) <= i
    ensures flags[i] ==>
      Count(flags[..i]) < |Keep(items, flags, true)| && Keep(items, flags, true)[Count(flags[..i])] == items[i]
    ensures !flags[i] ==>
      var at := i - Count(flags[..i]);
      at < |Keep(items, flags, false)| && Keep(items, flags, false)[at] == items[i]
  {
    if i > 0 {
      KeepAt(items[1..], flags[1..], i - 1);
      assert flags[..i][1..] == flags[1..][..i - 1];
    }
  }

  /** Where each element goes: behind the selected elements before it, or, behind all the selected ones,
      behind the others before it. */
  lemma SampledAt<T>(items: seq<T>, flags: seq<bool>, i: nat)
    requires i < |items| == |flags|
    ensures Count(flags[..i]) <= i
    ensures var at := if flags[i] then Count(flags[..i]) else Count(flags) + (i - Count(flags[..i]));
            at < |Sampled(items, flags)| && Sampled(items, flags)[at] == items[i]
  {
    KeepAt(items, flags, i);
    KeepCounts(items, flags);
  }

  // ----- in place -----

  /** Returns the place after the last selected element. */
  method Sample<T>(a: array<T>, toGo: int, draws: seq<nat>, calls: seq<nat>) returns (mid: nat)
    requires |draws| == a.Length == |calls| && InRange(draws) && CallOrder(calls)
    modifies a
    ensures a[..] == Sampled(old(a[..]), ByElement(Flags(toGo, draws), calls))
    ensures mid == Wanted(toGo, a.Length)
  {
    var answers := Ask(toGo, draws);
    ghost var flags := ByElement(answers, calls);
    KeepCounts(a[..], flags);
    SelectsExactly(toGo, draws, calls);
    mid := Partition(a, answers, calls);
  }

  /** The predicate, called once for each draw: it counts down what is left and what is wanted. */
  method Ask(toGo: int, draws: seq<nat>) returns (answers: seq<bool>)
    requires InRange(draws)
    ensures answers == Flags(toGo, draws)
  {
    var total, left := |draws|, toGo;
    answers := [];
    for j := 0 to |draws|
      invariant total == |draws| - j && answers + Flags(left, draws[j..]) == Flags(toGo, draws)
    {
      total := total - 1;
      assert draws[j] <= total;
      FlagsStep(answers, left, draws, j);
      answers := answers + [draws[j] < left];
      if draws[j] < left {
        left := left - 1;
      }
    }
  }

  lemma FlagsStep(answers: seq<bool>, left: int, draws: seq<nat>, j: nat)
    requires j < |draws|
    ensures answers + Flags(left, draws[j..])
         == answers + [draws[j] < left] + Flags(if draws[j] < left then left - 1 else left, draws[j + 1..])
  {
    assert draws[j..][1..] == draws[j + 1..];
  }

  /** The partition itself, with the answers at hand. */
  method Partition<T>(a: array<T>, answers: seq<bool>, calls: seq<nat>) returns (mid: nat)
    requires |answers| == a.Length == |calls| && CallOrder(calls)
    modifies a
    ensures a[..] == Sampled(old(a[..]), ByElement(answers, calls))
    ensures mid == |Keep(old(a[..]), ByElement(answers, calls), true)|
  {
    var others;
    KeepCounts(a[..], ByElement(answers, calls));
    mid, others := Select(a, answers, calls);
    CopyInto(a, mid, others);
  }

  /** Moves the selected elements to the front and sets the others aside. */
  method Select<T>(a: array<T>, answers: seq<bool>, calls: seq<nat>) returns (mid: nat, others: seq<T>)
    requires |answers| == a.Length == |calls| && CallOrder(calls)
    modifies a
    ensures mid <= a.Length && a[..mid] == Keep(old(a[..]), ByElement(answers, calls), true)
    ensures others == Keep(old(a[..]), ByElement(answers, calls), false)
  {
    ghost var items, flags := a[..], ByElement(answers, calls);
    mid, others := 0, [];
    for i := 0 to a.Length
      invariant mid <= i
      invariant forall k :: i <= k < a.Length ==> a[k] == items[k]
      invariant Halfway(a[..mid], others, items, flags, i)
    {
      HalfwayStep(a[..mid], others, items, flags, i);
      ghost var front := a[..mid];
      if answers[calls[i]] {
        a[mid] := a[i];
        mid := mid + 1;
        assert a[..mid] == front + [items[i]];
      } else {
        others := others + [a[i]];
      }
    }
  }

  /** After `i` elements: what is selected and what is not. */
  ghost predicate Halfway<T>(front: seq<T>, others: seq<T>, items: seq<T>, flags: seq<bool>, i: nat) {
    && i <= |items| == |flags|
    && front + Keep(items[i..], flags[i..], true) == Keep(items, flags, true)
    && others + Keep(items[i..], flags[i..], false) == Keep(items, flags, false)
  }

  lemma HalfwayStep<T>(front: seq<T>, others: seq<T>, items: seq<T>, flags: seq<bool>, i: nat)
    requires Halfway(front, others, items, flags, i) && i < |items|
    ensures if flags[i] then Halfway(front + [items[i]], others, items, flags, i + 1)
            else Halfway(front, others + [items[i]], items, flags, i + 1)
  {
    assert flags[i..][1..] == flags[i + 1..] && items[i..][1..] == items[i + 1..];
  }

  method CopyInto<T>(a: array<T>, start: nat, items: seq<T>)
    requires start + |items| == a.Length
    modifies a
    ensures a[..] == old(a[..start]) + items
  {
    for i := 0 to |items|
      invariant a[..start + i] == old(a[..start]) + items[..i]
    {
      a[start + i] := items[i];
    }
  }
}
