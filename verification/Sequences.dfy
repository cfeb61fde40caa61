/** Regrouping concatenations, away from whatever the parts are made of. */
module Sequences {
  lemma Regroup<T>(a: seq<T>, b: seq<T>, c: seq<T>)
    ensures a + b + c == a + (b + c)
  {
  }

  lemma RegroupFour<T>(a: seq<T>, b: seq<T>, c: seq<T>, d: seq<T>)
    ensures a + b + c + d == a + (b + (c + d))
    ensures a + b + c + d == a + (b + c + d)
  {
  }

  lemma DropBoth<T>(a: seq<T>, b: seq<T>, n: nat)
    requires n <= |b|
    ensures (a + b)[|a| + n..] == b[n..]
  {
  }

  lemma Leading<T>(x: T, y: T, a: seq<T>, b: seq<T>)
    ensures [x, y] + a + b == [x] + ([y] + (a + b))
  {
  }
}
