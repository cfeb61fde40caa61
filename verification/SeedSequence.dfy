/** What `seed_seq_fe`, the fixed-entropy seed sequence, computes, and the bijection properties its
    comments claim. */
module SeedSequence {
  import opened Words
  import opened SeedProgram
  import Sequences

  const INIT_B: bv32 := 0x8b51f9dd
  const MULT_B: bv32 := 0x58f38ded

  // ----- the programs that the loops run -----

  /** The first `n` seed words, zero-padded. */
  function Pad(words: seq<bv32>, n: nat): (r: seq<bv32>)
    ensures |r| == n
  {
    seq(n, i => if 0 <= i < |words| then words[i] else 0)
  }

  function LoadOps(k: nat): (ops: seq<Op>)
    ensures |ops| == k
  {
    if k == 0 then [] else LoadOps(k - 1) + [Load(k - 1)]
  }

  /** One pass of the inner loop; the source element is skipped. */
  function CrossRow(src: nat, d: nat): (ops: seq<Op>)
    ensures |ops| == if src < d then d - 1 else d
  {
    if d == 0 then [] else CrossRow(src, d - 1) + if src == d - 1 then [] else [Cross(src, d - 1)]
  }

  lemma CrossRowNext(src: nat, k: nat)
    ensures CrossRow(src, k + 1) == if src == k then CrossRow(src, k) else CrossRow(src, k) + [Cross(src, k)]
  {
    assert CrossRow(src, k) + [] == CrossRow(src, k);
  }

  function CrossOps(n: nat, k: nat): (ops: seq<Op>)
  {
    if k == 0 then [] else CrossOps(n, k - 1) + CrossRow(k - 1, n)
  }

  function AbsorbRow(word: bv32, d: nat): (ops: seq<Op>)
    ensures |ops| == d
  {
    if d == 0 then [] else AbsorbRow(word, d - 1) + [Absorb(word, d - 1)]
  }

  function AbsorbOps(words: seq<bv32>, n: nat): seq<Op> {
    if words == [] then [] else AbsorbOps(words[..|words| - 1], n) + AbsorbRow(words[|words| - 1], n)
  }

  function StoreOps(n: nat): seq<Op> {
    LoadOps(n) + CrossOps(n, n)
  }

  function Extra(words: seq<bv32>, n: nat): seq<bv32> {
    if |words| <= n then [] else words[n..]
  }

  lemma {:induction false} LoadOpsFit(k: nat, n: nat)
    requires k <= n
    ensures AllFit(LoadOps(k), n)
  {
    if k == 0 {
    } else {
      LoadOpsFit(k - 1, n);
    }
  }

  lemma {:induction false} CrossRowFits(src: nat, d: nat, n: nat)
    requires src < n && d <= n
    ensures AllFit(CrossRow(src, d), n)
  {
    if d == 0 {
    } else {
      CrossRowFits(src, d - 1, n);
    }
  }

  lemma {:induction false} CrossOpsFit(n: nat, k: nat)
    requires k <= n
    ensures AllFit(CrossOps(n, k), n)
  {
    if k == 0 {
    } else {
      CrossOpsFit(n, k - 1);
      CrossRowFits(k - 1, n, n);
    }
  }

  lemma {:induction false} AbsorbRowFits(word: bv32, d: nat, n: nat)
    requires d <= n
    ensures AllFit(AbsorbRow(word, d), n)
  {
    if d == 0 {
    } else {
      AbsorbRowFits(word, d - 1, n);
    }
  }

  lemma {:induction false} AbsorbOpsFit(words: seq<bv32>, n: nat)
    ensures AllFit(AbsorbOps(words, n), n)
    decreases |words|
  {
    if words == [] {
    } else {
      AbsorbOpsFit(words[..|words| - 1], n);
      AbsorbRowFits(words[|words| - 1], n, n);
    }
  }

  lemma StoreOpsFit(n: nat)
    ensures AllFit(StoreOps(n), n)
  {
    LoadOpsFit(n, n);
    CrossOpsFit(n, n);
  }

  lemma {:induction false} CrossOpsLength(n: nat, k: nat)
    requires k <= n
    ensures |CrossOps(n, k)| == k * (n - 1)
  {
    if k == 0 {
    } else {
      CrossOpsLength(n, k - 1);
      assert k * (n - 1) == (k - 1) * (n - 1) + (n - 1);
    }
  }

  /** The store phase hashes count^2 times, the exponent from which `param` starts. */
  lemma StoreOpsLength(n: nat)
    ensures |StoreOps(n)| == n * n
  {
    CrossOpsLength(n, n);
    assert n + n * (n - 1) == n * n;
  }

  // ----- what the operations compute -----

  /** The store after `mix_entropy`. */
  function Mix(words: seq<bv32>, n: nat): (r: seq<bv32>)
    ensures |r| == n
  {
    StoreOpsFit(n);
    AbsorbOpsFit(Extra(words, n), n);
    DoAll(Stored(words, n), AbsorbOps(Extra(words, n), n)).mix
  }

  /** The state of `mix_entropy` once the store is loaded and cross-mixed. */
  function Stored(words: seq<bv32>, n: nat): (r: State)
    ensures |r.mix| == n
  {
    StoreOpsFit(n);
    DoAll(State(Pad(words, n), INIT_A), StoreOps(n))
  }

  function Stirred(mix: seq<bv32>, k: nat): (r: seq<bv32>)
    ensures |r| == |mix|
    decreases k
  {
    if k == 0 then mix else Mix(Stirred(mix, k - 1), |mix|)
  }

  /** The store after `seed`, whose stirring loop runs for `i` from 1 while `i < rounds`. */
  function Seeded(words: seq<bv32>, n: nat, rounds: nat): (r: seq<bv32>)
    ensures |r| == n
  {
    Stirred(Mix(words, n), if rounds == 0 then 0 else rounds - 1)
  }

  /** The constant with which `param` begins each round. */
  function LastConst(n: nat): bv32 {
    Mul(INIT_A, Pow(MULT_A, (n * n) % WORD_COUNT))
  }

  function Unmixed(mix: seq<bv32>): (r: seq<bv32>)
    ensures |r| == |mix|
  {
    StoreOpsFit(|mix|);
    UndoAll(State(mix, LastConst(|mix|)), StoreOps(|mix|)).mix
  }

  /** The words that `param` writes. */
  function Params(mix: seq<bv32>, rounds: nat): (r: seq<bv32>)
    ensures |r| == |mix|
    decreases rounds
  {
    if rounds == 0 then mix else Params(Unmixed(mix), rounds - 1)
  }

  function OutConst(k: nat): bv32 {
    Mul(INIT_B, Pow(MULT_B, k))
  }

  function OutWord(value: bv32, k: nat): bv32 {
    XorShift(Mul(Xor(value, OutConst(k)), OutConst(k + 1)))
  }

  /** The words that `generate` writes: the store is read cyclically. */
  function Generated(mix: seq<bv32>, length: nat): seq<bv32>
    requires |mix| >= 1
  {
    seq(length, k requires 0 <= k => OutWord(mix[k % |mix|], k))
  }

  // ----- repeated steps -----

  function Forwards<T>(f: T -> T, x: T, k: nat): T {
    if k == 0 then x else f(Forwards(f, x, k - 1))
  }

  function Backwards<T>(g: T -> T, x: T, k: nat): T
    decreases k
  {
    if k == 0 then x else Backwards(g, g(x), k - 1)
  }

  /** Steps back undo as many steps forth. */
  lemma {:induction false} BackwardsUndoes<T(!new)>(f: T -> T, g: T -> T, x: T, k: nat, left: nat)
    requires forall y :: g(f(y)) == y
    ensures Backwards(g, Forwards(f, x, k), k + left) == Backwards(g, x, left)
    decreases k
  {
    if k > 0 {
      BackwardsUndoes(f, g, x, k - 1, left);
    }
  }

  /** And the other way round. */
  lemma {:induction false} ForwardsUndoes<T(!new)>(f: T -> T, g: T -> T, x: T, k: nat)
    requires forall y :: f(g(y)) == y
    ensures Forwards(f, Backwards(g, x, k), k) == x
    decreases k
  {
    if k > 0 {
      ForwardsUndoes(f, g, g(x), k - 1);
    }
  }

  // ----- param and seed are inverse to each other -----

  lemma LastConstIsLast(n: nat)
    ensures LastConst(n) == Mul(INIT_A, Pow(MULT_A, |StoreOps(n)|))
    ensures Odd(LastConst(n))
  {
    ConstantsAreOdd();
    StoreOpsLength(n);
    PowTruncated(MULT_A, n * n);
    PowIsOdd(MULT_A, (n * n) % WORD_COUNT);
    OddTimesOdd(INIT_A, Pow(MULT_A, (n * n) % WORD_COUNT));
  }

  lemma UnmixedMix(words: seq<bv32>, n: nat)
    requires |words| <= n
    ensures Unmixed(Mix(words, n)) == Pad(words, n)
  {
    ConstantsAreOdd();
    StoreOpsFit(n);
    var s := State(Pad(words, n), INIT_A);
    DoAllConstant(s, StoreOps(n));
    LastConstIsLast(n);
    UndoAllDoAll(s, StoreOps(n));
  }

  lemma PadWhole(words: seq<bv32>)
    ensures Pad(words, |words|) == words
  {
  }

  lemma MixUnmixed(mix: seq<bv32>)
    ensures Mix(Unmixed(mix), |mix|) == mix
  {
    var n := |mix|;
    StoreOpsFit(n);
    LastConstIsLast(n);
    var s := State(mix, LastConst(n));
    UndoAllConstant(s, StoreOps(n), INIT_A);
    DoAllUndoAll(s, StoreOps(n));
    PadWhole(Unmixed(mix));
  }

  function MixStore(mix: seq<bv32>): seq<bv32> {
    Mix(mix, |mix|)
  }

  lemma UnmixedMixStore(mix: seq<bv32>)
    ensures Unmixed(MixStore(mix)) == mix
  {
    UnmixedMix(mix, |mix|);
    PadWhole(mix);
  }

  lemma MixStoreUnmixed(mix: seq<bv32>)
    ensures MixStore(Unmixed(mix)) == mix
  {
    MixUnmixed(mix);
  }

  lemma {:induction false} StirredIsForwards(mix: seq<bv32>, k: nat)
    ensures Stirred(mix, k) == Forwards(MixStore, mix, k)
    decreases k
  {
    if k > 0 {
      StirredIsForwards(mix, k - 1);
    }
  }

  lemma {:induction false} ParamsIsBackwards(mix: seq<bv32>, rounds: nat)
    ensures Params(mix, rounds) == Backwards(Unmixed, mix, rounds)
    decreases rounds
  {
    if rounds > 0 {
      ParamsIsBackwards(Unmixed(mix), rounds - 1);
    }
  }

  lemma ParamsStirred(mix: seq<bv32>, k: nat, left: nat)
    ensures Params(Stirred(mix, k), k + left) == Params(mix, left)
  {
    StirredIsForwards(mix, k);
    ParamsIsBackwards(Stirred(mix, k), k + left);
    ParamsIsBackwards(mix, left);
    forall m: seq<bv32> {
      UnmixedMixStore(m);
    }
    BackwardsUndoes(MixStore, Unmixed, mix, k, left);
  }

  /** Section 26.5.1.2 of ISO/IEC 14882:2011: `param` recovers the seed words. For every store
      size and number of rounds, seeding and then calling `param` returns the input and then zeros. */
  lemma ParamOfSeed(words: seq<bv32>, n: nat, rounds: nat)
    requires |words| <= n && rounds >= 1
    ensures Params(Seeded(words, n, rounds), rounds) == Pad(words, n)
    ensures Params(Seeded(words, n, rounds), rounds)[..|words|] == words
    ensures forall i :: |words| <= i < n ==> Params(Seeded(words, n, rounds), rounds)[i] == 0
  {
    ParamIsPadded(words, n, rounds);
    PadIsExact(words, n);
  }

  lemma PadIsExact(words: seq<bv32>, n: nat)
    requires |words| <= n
    ensures Pad(words, n)[..|words|] == words && forall i :: |words| <= i < n ==> Pad(words, n)[i] == 0
  {
  }

  lemma ParamIsPadded(words: seq<bv32>, n: nat, rounds: nat)
    requires |words| <= n && rounds >= 1
    ensures Params(Seeded(words, n, rounds), rounds) == Pad(words, n)
  {
    ParamsStirred(Mix(words, n), rounds - 1, 1);
    UnmixedMix(words, n);
    assert Params(Unmixed(Mix(words, n)), 0) == Unmixed(Mix(words, n));
  }

  ghost predicate ParamRecovers(rounds: nat) {
    forall words: seq<bv32>, n: nat ::
      |words| <= n ==> Params(Seeded(words, n, rounds), rounds) == Pad(words, n)
  }

  lemma MixOfInitA()
    ensures Mix([INIT_A], 1) == [0]
  {
    StoreOpsFit(1);
    assert CrossRow(0, 0) == [] && CrossOps(1, 0) == [] && LoadOps(0) == [];
    assert CrossRow(0, 1) == CrossRow(0, 0) + [] && CrossOps(1, 1) == CrossOps(1, 0) + CrossRow(0, 1);
    assert LoadOps(1) == LoadOps(0) + [Load(0)];
    assert StoreOps(1) == [Load(0)];
    var s := State(Pad([INIT_A], 1), INIT_A);
    assert StoreOps(1)[..0] == [];
    assert DoAll(s, StoreOps(1)) == Do(s, Load(0));
    HashOfConstant(INIT_A);
  }

  lemma HashOfConstant(c: bv32)
    ensures HashWord(c, c) == 0
  {
    assert Xor(c, c) == 0;
    assert Mul(0, Mul(c, MULT_A)) == 0;
  }

  /** The exact condition on the template argument `mix_rounds`: with zero rounds `seed` still
      mixes once and `param` undoes nothing. */
  lemma ParamRecoversIff(rounds: nat)
    ensures ParamRecovers(rounds) <==> rounds >= 1
  {
    if rounds == 0 {
      MixOfInitA();
      assert Params(Seeded([INIT_A], 1, 0), 0) == [0];
      assert Pad([INIT_A], 1)[0] == INIT_A;
    } else {
      forall words: seq<bv32>, n: nat | |words| <= n
        ensures Params(Seeded(words, n, rounds), rounds) == Pad(words, n)
      {
        ParamOfSeed(words, n, rounds);
      }
    }
  }

  lemma StirredParams(mix: seq<bv32>, rounds: nat)
    ensures Stirred(Params(mix, rounds), rounds) == mix
  {
    ParamsIsBackwards(mix, rounds);
    StirredIsForwards(Params(mix, rounds), rounds);
    forall m: seq<bv32> {
      MixStoreUnmixed(m);
    }
    ForwardsUndoes(MixStore, Unmixed, mix, rounds);
  }

  lemma {:induction false} StirredOfMix(words: seq<bv32>, k: nat)
    ensures Stirred(Mix(words, |words|), k) == Stirred(words, k + 1)
    decreases k
  {
    if k == 0 {
    } else {
      StirredOfMix(words, k - 1);
    }
  }

  /** The same section: seeding with the output of `param` reproduces the state, whatever it is. */
  lemma SeedOfParam(mix: seq<bv32>, rounds: nat)
    requires rounds >= 1
    ensures Seeded(Params(mix, rounds), |mix|, rounds) == mix
  {
    StirredParams(mix, rounds);
    StirredOfMix(Params(mix, rounds), rounds - 1);
  }

  // ----- bijection and sensitivity for any number of seed words -----

  lemma StoredIsOdd(words: seq<bv32>, n: nat)
    ensures Odd(Stored(words, n).hashConst)
    ensures Stored(words, n).hashConst == LastConst(n)
  {
    ConstantsAreOdd();
    StoreOpsFit(n);
    DoAllKeepsOdd(State(Pad(words, n), INIT_A), StoreOps(n));
    DoAllConstant(State(Pad(words, n), INIT_A), StoreOps(n));
    LastConstIsLast(n);
  }

  lemma StoredInjective(words: seq<bv32>, words': seq<bv32>, n: nat)
    requires Stored(words, n) == Stored(words', n)
    ensures Pad(words, n) == Pad(words', n)
  {
    ConstantsAreOdd();
    StoreOpsFit(n);
    DoAllInjective(State(Pad(words, n), INIT_A), State(Pad(words', n), INIT_A), StoreOps(n));
  }

  /** With the words beyond the store fixed, `mix_entropy` is injective in the first `n`. */
  lemma MixInjectiveInStore(words: seq<bv32>, words': seq<bv32>, n: nat)
    requires Extra(words, n) == Extra(words', n)
    requires Mix(words, n) == Mix(words', n)
    ensures Pad(words, n) == Pad(words', n)
  {
    var extra := AbsorbOps(Extra(words, n), n);
    AbsorbOpsFit(Extra(words, n), n);
    StoredIsOdd(words, n);
    StoredIsOdd(words', n);
    DoAllInjective(Stored(words, n), Stored(words', n), extra);
    StoredInjective(words, words', n);
  }

  lemma {:induction false} StirredInjective(mix: seq<bv32>, mix': seq<bv32>, k: nat)
    requires |mix| == |mix'|
    requires Stirred(mix, k) == Stirred(mix', k)
    ensures mix == mix'
    decreases k
  {
    if k == 0 {
    } else {
      var m, m' := Stirred(mix, k - 1), Stirred(mix', k - 1);
      MixInjectiveInStore(m, m', |mix|);
      PadWhole(m);
      PadWhole(m');
      StirredInjective(mix, mix', k - 1);
    }
  }

  lemma {:induction false} AbsorbOpsConcat(xs: seq<bv32>, ys: seq<bv32>, n: nat)
    ensures AbsorbOps(xs + ys, n) == AbsorbOps(xs, n) + AbsorbOps(ys, n)
    decreases |ys|
  {
    if ys == [] {
      assert xs + ys == xs;
    } else {
      var front, last := ys[..|ys| - 1], ys[|ys| - 1];
      assert ys == front + [last];
      Sequences.Regroup(xs, front, [last]);
      AbsorbOpsConcat(xs, front, n);
      AbsorbOpsLast(xs + front, last, n);
      AbsorbOpsLast(front, last, n);
      Sequences.Regroup(AbsorbOps(xs, n), AbsorbOps(front, n), AbsorbRow(last, n));
    }
  }

  lemma AbsorbOpsLast(words: seq<bv32>, word: bv32, n: nat)
    ensures AbsorbOps(words + [word], n) == AbsorbOps(words, n) + AbsorbRow(word, n)
  {
    assert (words + [word])[..|words|] == words;
  }

  /** The first destination of a pass keeps what the first step of the pass put there. */
  lemma {:induction false} AbsorbRowHead(s: State, word: bv32, d: nat)
    requires 1 <= d <= |s.mix|
    requires AllFit(AbsorbRow(word, d), |s.mix|)
    ensures DoAll(s, AbsorbRow(word, d)).mix[0] == MixWords(s.mix[0], HashWord(word, s.hashConst))
  {
    if d == 1 {
      assert AbsorbRow(word, 1) == [Absorb(word, 0)];
      assert DoAll(s, []) == s;
    } else {
      var row := AbsorbRow(word, d);
      AbsorbRowFits(word, d - 1, |s.mix|);
      assert row[..|row| - 1] == AbsorbRow(word, d - 1);
      assert row[|row| - 1] == Absorb(word, d - 1);
      AbsorbRowHead(s, word, d - 1);
    }
  }

  lemma HashInjective(v: bv32, v': bv32, c: bv32)
    requires Odd(c)
    requires HashWord(v, c) == HashWord(v', c)
    ensures v == v'
  {
    UnhashHash(v, c);
    UnhashHash(v', c);
  }

  lemma AbsorbWordMatters(s: State, w: bv32, w': bv32)
    requires |s.mix| >= 1 && Odd(s.hashConst) && w != w'
    requires AllFit(AbsorbRow(w, |s.mix|), |s.mix|) && AllFit(AbsorbRow(w', |s.mix|), |s.mix|)
    ensures DoAll(s, AbsorbRow(w, |s.mix|)).mix != DoAll(s, AbsorbRow(w', |s.mix|)).mix
  {
    var n, c := |s.mix|, s.hashConst;
    AbsorbRowHead(s, w, n);
    AbsorbRowHead(s, w', n);
    if MixWords(s.mix[0], HashWord(w, c)) == MixWords(s.mix[0], HashWord(w', c)) {
      MixInjective(s.mix[0], HashWord(w, c), HashWord(w', c));
      HashInjective(w, w', c);
    }
  }

  /** Changing one word among those absorbed after the store is full changes the store. */
  lemma AbsorbedWordMatters(s: State, before: seq<bv32>, w: bv32, w': bv32, after: seq<bv32>)
    requires |s.mix| >= 1 && Odd(s.hashConst) && w != w'
    requires AllFit(AbsorbOps(before + [w] + after, |s.mix|), |s.mix|)
    requires AllFit(AbsorbOps(before + [w'] + after, |s.mix|), |s.mix|)
    ensures DoAll(s, AbsorbOps(before + [w] + after, |s.mix|)).mix
         != DoAll(s, AbsorbOps(before + [w'] + after, |s.mix|)).mix
  {
    var n := |s.mix|;
    AbsorbOpsFit(before, n);
    AbsorbOpsFit(after, n);
    var t := DoAll(s, AbsorbOps(before, n));
    DoAllKeepsOdd(s, AbsorbOps(before, n));
    var u := AbsorbSplit(s, before, w, after);
    var u' := AbsorbSplit(s, before, w', after);
    AbsorbWordMatters(t, w, w');
    DoAllConstant(t, AbsorbRow(w, n));
    DoAllConstant(t, AbsorbRow(w', n));
    DoAllKeepsOdd(t, AbsorbRow(w, n));
    if DoAll(u, AbsorbOps(after, n)).mix == DoAll(u', AbsorbOps(after, n)).mix {
      DoAllInjective(u, u', AbsorbOps(after, n));
    }
  }

  lemma AbsorbSplit(s: State, before: seq<bv32>, w: bv32, after: seq<bv32>) returns (u: State)
    ensures AllFit(AbsorbOps(before, |s.mix|), |s.mix|) && AllFit(AbsorbRow(w, |s.mix|), |s.mix|)
    ensures AllFit(AbsorbOps(after, |s.mix|), |s.mix|)
    ensures AllFit(AbsorbOps(before + [w] + after, |s.mix|), |s.mix|)
    ensures u == DoAll(DoAll(s, AbsorbOps(before, |s.mix|)), AbsorbRow(w, |s.mix|))
    ensures DoAll(s, AbsorbOps(before + [w] + after, |s.mix|)) == DoAll(u, AbsorbOps(after, |s.mix|))
  {
    var n := |s.mix|;
    AbsorbOpsFit(before, n);
    AbsorbRowFits(w, n, n);
    AbsorbOpsFit(after, n);
    AbsorbOpsFit(before + [w] + after, n);
    u := DoAll(DoAll(s, AbsorbOps(before, n)), AbsorbRow(w, n));
    assert (before + [w])[..|before + [w]| - 1] == before;
    AbsorbOpsConcat(before + [w], after, n);
    DoAllConcat(s, AbsorbOps(before, n), AbsorbRow(w, n));
    DoAllConcat(s, AbsorbOps(before + [w], n), AbsorbOps(after, n));
  }

  lemma StoredWordMatters(words: seq<bv32>, i: nat, w: bv32, n: nat)
    requires i < n && i < |words| && w != words[i]
    ensures Mix(words[i := w], n) != Mix(words, n)
  {
    var changed := words[i := w];
    assert Extra(changed, n) == Extra(words, n);
    assert Pad(changed, n)[i] != Pad(words, n)[i];
    if Mix(changed, n) == Mix(words, n) {
      MixInjectiveInStore(changed, words, n);
    }
  }

  lemma ExtraWordMatters(words: seq<bv32>, i: nat, w: bv32, n: nat)
    requires 1 <= n <= i < |words| && w != words[i]
    ensures Mix(words[i := w], n) != Mix(words, n)
  {
    var changed := words[i := w];
    assert Pad(changed, n) == Pad(words, n);
    var extra, j := Extra(words, n), i - n;
    assert extra == extra[..j] + [words[i]] + extra[j + 1..];
    assert Extra(changed, n) == extra[..j] + [w] + extra[j + 1..];
    StoredIsOdd(words, n);
    AbsorbOpsFit(extra, n);
    AbsorbOpsFit(Extra(changed, n), n);
    AbsorbedWordMatters(Stored(words, n), extra[..j], words[i], w, extra[j + 1..]);
  }

  /** Changing exactly one seed word, of any number of words, always changes the seeded state. */
  lemma SeedOneWord(words: seq<bv32>, i: nat, w: bv32, n: nat, rounds: nat)
    requires n >= 1 && i < |words| && w != words[i]
    ensures Seeded(words[i := w], n, rounds) != Seeded(words, n, rounds)
  {
    if i < n {
      StoredWordMatters(words, i, w, n);
    } else {
      ExtraWordMatters(words, i, w, n);
    }
    if Seeded(words[i := w], n, rounds) == Seeded(words, n, rounds) {
      StirredInjective(Mix(words[i := w], n), Mix(words, n), if rounds == 0 then 0 else rounds - 1);
    }
  }

  lemma UnstirredExists(target: seq<bv32>, k: nat) returns (mix: seq<bv32>)
    ensures |mix| == |target| && Stirred(mix, k) == target
  {
    mix := Params(target, k);
    StirredParams(target, k);
  }

  lemma UnstoredExists(target: seq<bv32>, c: bv32) returns (words: seq<bv32>)
    requires c == LastConst(|target|)
    ensures |words| == |target| && Stored(words, |target|) == State(target, c)
  {
    var n := |target|;
    words := Unmixed(target);
    StoreOpsFit(n);
    LastConstIsLast(n);
    UndoAllConstant(State(target, c), StoreOps(n), INIT_A);
    DoAllUndoAll(State(target, c), StoreOps(n));
    PadWhole(words);
  }

  lemma PrefixOfExtended(first: seq<bv32>, extra: seq<bv32>)
    ensures Extra(first + extra, |first|) == extra
    ensures Pad(first + extra, |first|) == first
  {
  }

  /** With the words beyond the store fixed, every state of the store is reached. */
  lemma SeedReaches(target: seq<bv32>, extra: seq<bv32>, rounds: nat) returns (first: seq<bv32>)
    ensures |first| == |target| && Seeded(first + extra, |target|, rounds) == target
  {
    var n := |target|;
    var mixed := UnstirredExists(target, if rounds == 0 then 0 else rounds - 1);
    var ops := AbsorbOps(extra, n);
    AbsorbOpsFit(extra, n);
    LastConstIsLast(n);
    var last := State(mixed, Mul(LastConst(n), Pow(MULT_A, |ops|)));
    ConstantsAreOdd();
    PowIsOdd(MULT_A, |ops|);
    OddTimesOdd(LastConst(n), Pow(MULT_A, |ops|));
    UndoAllConstant(last, ops, LastConst(n));
    DoAllUndoAll(last, ops);
    first := UnstoredExists(UndoAll(last, ops).mix, LastConst(n));
    PrefixOfExtended(first, extra);
    PadWhole(first);
    assert Stored(first + extra, n) == Stored(first, n);
  }

  /** ... and by one choice of the first words only. */
  lemma SeedReachesOnce(first: seq<bv32>, first': seq<bv32>, extra: seq<bv32>, rounds: nat)
    requires |first| == |first'|
    requires Seeded(first + extra, |first|, rounds) == Seeded(first' + extra, |first|, rounds)
    ensures first == first'
  {
    var n := |first|;
    StirredInjective(Mix(first + extra, n), Mix(first' + extra, n), if rounds == 0 then 0 else rounds - 1);
    PrefixOfExtended(first, extra);
    PrefixOfExtended(first', extra);
    MixInjectiveInStore(first + extra, first' + extra, n);
  }

  // ----- generate -----

  lemma OutConstIsOdd(k: nat)
    ensures Odd(OutConst(k))
  {
    assert Odd(INIT_B) && Odd(MULT_B);
    PowIsOdd(MULT_B, k);
    OddTimesOdd(INIT_B, Pow(MULT_B, k));
  }

  lemma OutConstNext(k: nat)
    ensures OutConst(k + 1) == Mul(OutConst(k), MULT_B)
  {
    MulAssoc(INIT_B, Pow(MULT_B, k), MULT_B);
    MulComm(MULT_B, Pow(MULT_B, k));
  }

  lemma OutWordInjective(v: bv32, v': bv32, k: nat)
    requires OutWord(v, k) == OutWord(v', k)
    ensures v == v'
  {
    var c, next := OutConst(k), OutConst(k + 1);
    OutConstIsOdd(k + 1);
    OddInverse(next);
    XorShiftInvolution(Mul(Xor(v, c), next));
    XorShiftInvolution(Mul(Xor(v', c), next));
    MulCancel(Xor(v, c), next, Pow(next, MAX_EXPONENT));
    MulCancel(Xor(v', c), next, Pow(next, MAX_EXPONENT));
    XorCancel(v, c);
    XorCancel(v', c);
  }

  lemma SmallRemainder(k: nat, n: nat)
    requires k < n
    ensures k % n == k
  {
  }

  lemma GeneratedAt(mix: seq<bv32>, length: nat, k: nat)
    requires k < |mix| && k < length
    ensures Generated(mix, length)[k] == OutWord(mix[k], k)
  {
    SmallRemainder(k, |mix|);
  }

  /** Equal outputs of at least `count` words come from equal states. */
  lemma GeneratedInjective(mix: seq<bv32>, mix': seq<bv32>, length: nat)
    requires |mix| == |mix'| >= 1 && length >= |mix|
    requires Generated(mix, length) == Generated(mix', length)
    ensures mix == mix'
  {
    forall k | 0 <= k < |mix|
      ensures mix[k] == mix'[k]
    {
      GeneratedAt(mix, length, k);
      GeneratedAt(mix', length, k);
      OutWordInjective(mix[k], mix'[k], k);
    }
  }

  ghost predicate Separates(n: nat, length: nat)
    requires n >= 1
  {
    forall m: seq<bv32>, m': seq<bv32> ::
      |m| == |m'| == n && Generated(m, length) == Generated(m', length) ==> m == m'
  }

  lemma IndistinctStates(n: nat, length: nat) returns (m: seq<bv32>, m': seq<bv32>)
    requires length < n
    ensures |m| == |m'| == n && m != m' && Generated(m, length) == Generated(m', length)
  {
    m := seq(n, _ => 0 as bv32);
    m' := m[n - 1 := 1];
    assert m[n - 1] != m'[n - 1];
    GeneratedFromFirst(m, m', length);
  }

  lemma GeneratedFromFirst(m: seq<bv32>, m': seq<bv32>, length: nat)
    requires |m| == |m'| > length && forall k :: 0 <= k < length ==> m[k] == m'[k]
    ensures Generated(m, length) == Generated(m', length)
  {
    var out, out' := Generated(m, length), Generated(m', length);
    forall k | 0 <= k < length ensures out[k] == out'[k] {
      GeneratedAt(m, length, k);
      GeneratedAt(m', length, k);
    }
  }

  /** `generate` tells all states apart exactly when it is asked for at least `count` words. */
  lemma GenerateSeparates(n: nat, length: nat)
    requires n >= 1
    ensures Separates(n, length) <==> length >= n
  {
    if length >= n {
      forall m: seq<bv32>, m': seq<bv32> | |m| == |m'| == n && Generated(m, length) == Generated(m', length)
        ensures m == m'
      {
        GeneratedInjective(m, m', length);
      }
    } else {
      var m, m' := IndistinctStates(n, length);
    }
  }

  /** The documented consequence: seed data that differ in one part give different outputs. */
  lemma OneWordChangesOutput(words: seq<bv32>, i: nat, w: bv32, n: nat, rounds: nat, length: nat)
    requires n >= 1 && i < |words| && w != words[i] && length >= n
    ensures Generated(Seeded(words[i := w], n, rounds), length) != Generated(Seeded(words, n, rounds), length)
  {
    SeedOneWord(words, i, w, n, rounds);
    var m, m' := Seeded(words[i := w], n, rounds), Seeded(words, n, rounds);
    if Generated(m, length) == Generated(m', length) {
      GeneratedInjective(m, m', length);
    }
  }
}
