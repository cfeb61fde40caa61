/** A list written item by item and read back item by item, for any item format. */
module Repetition {
  import opened Bytes
  import Sequences

  /** How an item at a position is written, and what one turn of the reader appends and leaves. */
  type Writer<!T> = (nat, T) -> seq<Byte>
  type Reader<!T> = seq<Byte> -> (seq<T>, seq<Byte>)

  function WriteFrom<T>(write: Writer<T>, items: seq<T>, i: nat): seq<Byte>
    requires i <= |items|
    decreases |items| - i
  {
    if i == |items| then [] else write(i, items[i]) + WriteFrom(write, items, i + 1)
  }

  predicate IsSuffix(c: seq<Byte>, s: seq<Byte>) {
    |c| <= |s| && s[|s| - |c|..] == c
  }

  lemma SuffixOfLonger(a: seq<Byte>, b: seq<Byte>, c: seq<Byte>)
    requires IsSuffix(c, b)
    ensures IsSuffix(c, a + b)
  {
    Sequences.DropBoth(a, b, |b| - |c|);
  }

  lemma {:induction false} WriteSuffix<T>(write: Writer<T>, items: seq<T>, i: nat, k: nat)
    requires i <= k <= |items|
    ensures IsSuffix(WriteFrom(write, items, k), WriteFrom(write, items, i))
    decreases k - i
  {
    if i == k {
      assert WriteFrom(write, items, i)[0..] == WriteFrom(write, items, i);
    } else {
      WriteSuffix(write, items, i + 1, k);
      SuffixOfLonger(write(i, items[i]), WriteFrom(write, items, i + 1), WriteFrom(write, items, k));
    }
  }

  function ReadMany<T>(read: Reader<T>, n: nat, s: seq<Byte>): seq<T> {
    if n == 0 then [] else read(s).0 + ReadMany(read, n - 1, read(s).1)
  }

  /** The reader gives the item back and stops right after it, whatever follows. */
  ghost predicate Recovers<T(!new)>(write: Writer<T>, read: Reader<T>, item: T) {
    forall i: nat, rest :: read(write(i, item) + rest) == ([item], rest)
  }

  /** The reader gives some other single item. */
  ghost predicate Misreads<T(!new)>(write: Writer<T>, read: Reader<T>, item: T) {
    forall i: nat, rest :: |read(write(i, item) + rest).0| == 1 && read(write(i, item) + rest).0[0] != item
  }

  lemma MisreadIsNotRecovered<T(!new)>(write: Writer<T>, read: Reader<T>, item: T)
    requires Misreads(write, read, item)
    ensures !Recovers(write, read, item)
  {
    var s := write(0, item) + [];
    assert read(s).0[0] != item;
    assert Recovers(write, read, item) ==> read(s) == ([item], []);
  }

  /** One turn of the reader on what the writer wrote from item `i` on. */
  lemma ReadNext<T>(write: Writer<T>, read: Reader<T>, items: seq<T>, i: nat, n: nat, rest: seq<Byte>)
    requires i < |items| && n > 0
    ensures var tail := WriteFrom(write, items, i + 1) + rest;
            var s := write(i, items[i]) + tail;
            && WriteFrom(write, items, i) + rest == s
            && ReadMany(read, n, s) == read(s).0 + ReadMany(read, n - 1, read(s).1)
  {
    Sequences.Regroup(write(i, items[i]), WriteFrom(write, items, i + 1), rest);
  }

  lemma RecoveredGoesOn<T(!new)>(write: Writer<T>, read: Reader<T>, items: seq<T>, i: nat, rest: seq<Byte>)
    requires i < |items| && Recovers(write, read, items[i])
    ensures ReadMany(read, |items| - i, WriteFrom(write, items, i) + rest) == items[i..]
       <==> ReadMany(read, |items| - i - 1, WriteFrom(write, items, i + 1) + rest) == items[i + 1..]
  {
    var tail := WriteFrom(write, items, i + 1) + rest;
    ReadNext(write, read, items, i, |items| - i, rest);
    assert read(write(i, items[i]) + tail) == ([items[i]], tail);
    assert items[i..] == [items[i]] + items[i + 1..];
    HeadAndTail(items[i], ReadMany(read, |items| - i - 1, tail), items[i + 1..]);
  }

  lemma MisreadDiffers<T(!new)>(write: Writer<T>, read: Reader<T>, items: seq<T>, i: nat, rest: seq<Byte>)
    requires i < |items| && Misreads(write, read, items[i])
    ensures ReadMany(read, |items| - i, WriteFrom(write, items, i) + rest) != items[i..]
  {
    var s := write(i, items[i]) + (WriteFrom(write, items, i + 1) + rest);
    ReadNext(write, read, items, i, |items| - i, rest);
    assert |read(s).0| == 1 && read(s).0[0] != items[i];
    OtherHead(read(s).0, ReadMany(read, |items| - i - 1, read(s).1), items[i..]);
  }

  /** A list survives exactly when each of its items does. */
  lemma {:induction false} ReadOfWritten<T(!new)>(write: Writer<T>, read: Reader<T>, items: seq<T>, i: nat,
                                                  rest: seq<Byte>)
    requires i <= |items|
    requires forall k :: i <= k < |items| ==> Recovers(write, read, items[k]) || Misreads(write, read, items[k])
    ensures ReadMany(read, |items| - i, WriteFrom(write, items, i) + rest) == items[i..]
       <==> forall k :: i <= k < |items| ==> Recovers(write, read, items[k])
    decreases |items| - i
  {
    if i == |items| {
    } else if Recovers(write, read, items[i]) {
      RecoveredGoesOn(write, read, items, i, rest);
      ReadOfWritten(write, read, items, i + 1, rest);
    } else {
      MisreadDiffers(write, read, items, i, rest);
    }
  }

  lemma OtherHead<T>(one: seq<T>, xs: seq<T>, ys: seq<T>)
    requires |one| == 1 && ys != [] && one[0] != ys[0]
    ensures one + xs != ys
  {
    assert (one + xs)[0] == one[0];
  }

  lemma HeadAndTail<T>(head: T, xs: seq<T>, ys: seq<T>)
    ensures [head] + xs == [head] + ys <==> xs == ys
  {
    assert ([head] + xs)[1..] == xs && ([head] + ys)[1..] == ys;
  }

  lemma ReadRecovered<T(!new)>(write: Writer<T>, read: Reader<T>, items: seq<T>, i: nat, n: nat, rest: seq<Byte>)
    requires i < |items| && n > 0 && Recovers(write, read, items[i])
    ensures ReadMany(read, n, WriteFrom(write, items, i) + rest)
         == [items[i]] + ReadMany(read, n - 1, WriteFrom(write, items, i + 1) + rest)
  {
    var tail := WriteFrom(write, items, i + 1) + rest;
    ReadNext(write, read, items, i, n, rest);
    assert read(write(i, items[i]) + tail) == ([items[i]], tail);
  }

  /** Items that are recovered come first, whatever becomes of the others. */
  lemma {:induction false} ReadPrefix<T(!new)>(write: Writer<T>, read: Reader<T>, items: seq<T>, i: nat, k: nat,
                                               n: nat, rest: seq<Byte>)
    requires i <= k <= |items| && k - i <= n
    requires forall j :: i <= j < k ==> Recovers(write, read, items[j])
    ensures ReadMany(read, n, WriteFrom(write, items, i) + rest)
         == items[i..k] + ReadMany(read, n - (k - i), WriteFrom(write, items, k) + rest)
    decreases k - i
  {
    if i == k {
    } else {
      ReadRecovered(write, read, items, i, n, rest);
      ReadPrefix(write, read, items, i + 1, k, n - 1, rest);
      assert items[i..k] == [items[i]] + items[i + 1..k];
      Sequences.Regroup([items[i]], items[i + 1..k], ReadMany(read, n - (k - i), WriteFrom(write, items, k) + rest));
    }
  }

  /** The reader gives one item, which has the given relation to the one written. */
  ghost predicate Changes<T(!new)>(write: Writer<T>, read: Reader<T>, item: T, change: (T, T) -> bool) {
    forall i: nat, rest :: |read(write(i, item) + rest).0| == 1 && change(item, read(write(i, item) + rest).0[0])
  }

  lemma ChangeIsMisread<T(!new)>(write: Writer<T>, read: Reader<T>, item: T, change: (T, T) -> bool)
    requires Changes(write, read, item, change) && !change(item, item)
    ensures Misreads(write, read, item)
  {
  }

  /** A reader that appends at most one item a turn reads at most as many as it is told to, and
      only items that a single turn can give. */
  lemma {:induction false} ReadManyBounds<T(!new)>(read: Reader<T>, good: T -> bool, n: nat, s: seq<Byte>)
    requires forall t :: |read(t).0| <= 1 && forall item :: item in read(t).0 ==> good(item)
    ensures |ReadMany(read, n, s)| <= n
    ensures forall item :: item in ReadMany(read, n, s) ==> good(item)
  {
    if n == 0 {
    } else {
      ReadManyBounds(read, good, n - 1, read(s).1);
    }
  }

  // ----- with the number of items sent ahead in one byte -----

  function WriteCounted<T>(write: Writer<T>, items: seq<T>): seq<Byte> {
    [ToByte(|items|)] + WriteFrom(write, items, 0)
  }

  lemma CountedSuffix<T>(write: Writer<T>, items: seq<T>, k: nat)
    requires k < |items|
    ensures var n := |WriteFrom(write, items, 0)| - |WriteFrom(write, items, k)|;
      && 0 <= n && 1 + n <= |WriteCounted(write, items)|
      && WriteCounted(write, items)[1 + n..] == write(k, items[k]) + WriteFrom(write, items, k + 1)
  {
    WriteSuffix(write, items, 0, k);
    var all := WriteFrom(write, items, 0);
    Sequences.DropBoth([ToByte(|items|)], all, |all| - |WriteFrom(write, items, k)|);
  }

  function ReadCounted<T>(read: Reader<T>, s: seq<Byte>): seq<T> {
    ReadMany(read, ReadByte(s).value, ReadByte(s).rest)
  }

  lemma ReadOfCounted<T>(write: Writer<T>, read: Reader<T>, items: seq<T>, rest: seq<Byte>)
    ensures ReadByte(WriteCounted(write, items) + rest).value == |items| % 256
    ensures ReadCounted(read, WriteCounted(write, items) + rest)
         == ReadMany(read, |items| % 256, WriteFrom(write, items, 0) + rest)
  {
    assert WriteCounted(write, items) + rest == [ToByte(|items|)] + (WriteFrom(write, items, 0) + rest);
    ReadByteOf(ToByte(|items|), WriteFrom(write, items, 0) + rest);
  }

  /** A list survives, and is not taken for an empty one, exactly when it has 1 to 255 items and each
      of them survives. */
  lemma CountedRoundTrip<T(!new)>(write: Writer<T>, read: Reader<T>, good: T -> bool, items: seq<T>, rest: seq<Byte>)
    requires forall item :: if good(item) then Recovers(write, read, item)
                            else Misreads(write, read, item) && !Recovers(write, read, item)
    requires forall t :: |read(t).0| <= 1 && forall item :: item in read(t).0 ==> good(item)
    ensures (var bytes := WriteCounted(write, items) + rest;
             ReadByte(bytes).value != 0 && ReadCounted(read, bytes) == items)
       <==> 1 <= |items| <= 255 && forall item :: item in items ==> good(item)
  {
    ReadOfCounted(write, read, items, rest);
    if |items| <= 255 {
      assert items[0..] == items;
      ReadOfWritten(write, read, items, 0, rest);
    } else {
      ReadManyBounds(read, good, |items| % 256, WriteFrom(write, items, 0) + rest);
    }
  }

  /** The first item that is not recovered comes back in its place, changed. */
  lemma FirstChanged<T(!new)>(write: Writer<T>, read: Reader<T>, change: (T, T) -> bool, items: seq<T>, k: nat,
                              rest: seq<Byte>)
    requires k < |items| <= 255 && Changes(write, read, items[k], change)
    requires forall j :: 0 <= j < k ==> Recovers(write, read, items[j])
    ensures var back := ReadCounted(read, WriteCounted(write, items) + rest);
            k < |back| && change(items[k], back[k])
  {
    ReadOfCounted(write, read, items, rest);
    var n := |items|;
    ReadPrefix(write, read, items, 0, k, n, rest);
    ReadNext(write, read, items, k, n - k, rest);
  }

  lemma WriteStep<T>(write: Writer<T>, before: seq<Byte>, items: seq<T>, i: nat)
    requires i < |items|
    ensures before + WriteFrom(write, items, i) == before + write(i, items[i]) + WriteFrom(write, items, i + 1)
  {
  }

  lemma ReadStep<T>(read: Reader<T>, before: seq<T>, n: nat, s: seq<Byte>)
    requires n > 0
    ensures before + ReadMany(read, n, s) == before + read(s).0 + ReadMany(read, n - 1, read(s).1)
  {
    var head, tail := read(s).0, ReadMany(read, n - 1, read(s).1);
    assert before + (head + tail) == before + head + tail;
  }
}
