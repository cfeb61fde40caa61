/** What each pass of the loops of `seed_seq_fe` does to the store, element by element. */
module SeedPasses {
  import opened Words
  import opened SeedProgram
  import opened SeedSequence

  /** The hash constant after `k` more hashes. */
  function ConstAfter(c: bv32, k: nat): bv32 {
    Mul(c, Pow(MULT_A, k))
  }

  lemma OneMore(s: State, ops: seq<Op>, op: Op)
    requires AllFit(ops, |s.mix|) && Fits(op, |s.mix|)
    ensures AllFit(ops + [op], |s.mix|)
    ensures DoAll(s, ops + [op]) == Do(DoAll(s, ops), op)
    ensures DoAll(s, ops).hashConst == ConstAfter(s.hashConst, |ops|)
  {
    assert (ops + [op])[..|ops|] == ops;
    DoAllConstant(s, ops);
  }

  /** The store once the loading loop has done `k` elements: each is hashed in its place. */
  ghost predicate Loaded(s: State, t: seq<bv32>, k: nat) {
    && |t| == |s.mix|
    && (forall d :: 0 <= d < k <= |t| ==> t[d] == HashWord(s.mix[d], ConstAfter(s.hashConst, d)))
    && (forall d :: k <= d < |t| ==> t[d] == s.mix[d])
  }

  lemma LoadedStep(s: State, t: State, k: nat)
    requires Loaded(s, t.mix, k) && k < |s.mix| && t.hashConst == ConstAfter(s.hashConst, k)
    ensures Loaded(s, Do(t, Load(k)).mix, k + 1)
  {
  }

  lemma {:induction false} LoadPass(s: State, k: nat)
    requires k <= |s.mix|
    ensures AllFit(LoadOps(k), |s.mix|) && Loaded(s, DoAll(s, LoadOps(k)).mix, k)
  {
    if k > 0 {
      LoadPass(s, k - 1);
      LoadNext(s, LoadOps(k - 1), k - 1);
    }
  }

  lemma LoadNext(s: State, ops: seq<Op>, k: nat)
    requires AllFit(ops, |s.mix|) && |ops| == k < |s.mix| && Loaded(s, DoAll(s, ops).mix, k)
    ensures AllFit(ops + [Load(k)], |s.mix|) && Loaded(s, DoAll(s, ops + [Load(k)]).mix, k + 1)
  {
    OneMore(s, ops, Load(k));
    LoadedStep(s, DoAll(s, ops), k);
  }

  /** How many elements other than `src` come before `d`. */
  function OthersBefore(src: nat, d: nat): nat {
    if src < d then d - 1 else d
  }

  /** The store once a pass of the cross-mixing has done `k` elements: its source is as it was, and it has
      been mixed, hashed anew each time, into every other one. */
  ghost predicate Crossed(s: State, t: seq<bv32>, src: nat, k: nat) {
    && |t| == |s.mix| && src < |t|
    && t[src] == s.mix[src]
    && (forall d :: 0 <= d < k <= |t| && d != src ==>
        t[d] == MixWords(s.mix[d], HashWord(s.mix[src], ConstAfter(s.hashConst, OthersBefore(src, d)))))
    && (forall d :: k <= d < |t| ==> t[d] == s.mix[d])
  }

  lemma CrossedStep(s: State, t: State, src: nat, k: nat)
    requires Crossed(s, t.mix, src, k) && k < |s.mix| && t.hashConst == ConstAfter(s.hashConst, OthersBefore(src, k))
    ensures if src == k then Crossed(s, t.mix, src, k + 1) else Crossed(s, Do(t, Cross(src, k)).mix, src, k + 1)
  {
  }

  /** A program does that. */
  ghost predicate DoesCross(ops: seq<Op>, s: State, src: nat, k: nat) {
    && AllFit(ops, |s.mix|) && |ops| == OthersBefore(src, k)
    && Crossed(s, DoAll(s, ops).mix, src, k)
  }

  lemma NotYetCrossed(s: State, src: nat)
    requires src < |s.mix|
    ensures DoesCross(CrossRow(src, 0), s, src, 0)
  {
  }

  lemma CrossNext(s: State, ops: seq<Op>, next: seq<Op>, src: nat, k: nat)
    requires src < |s.mix| && k < |s.mix| && DoesCross(ops, s, src, k)
    requires next == if src == k then ops else ops + [Cross(src, k)]
    ensures DoesCross(next, s, src, k + 1)
  {
    DoAllConstant(s, ops);
    CrossedStep(s, DoAll(s, ops), src, k);
    if src != k {
      OneMore(s, ops, Cross(src, k));
    }
  }

  ghost predicate IsDoesCross(does: (seq<Op>, nat) -> bool, s: State, src: nat) {
    forall ops, k {:trigger DoesCross(ops, s, src, k)} :: does(ops, k) == DoesCross(ops, s, src, k)
  }

  lemma CrossNextBy(does: (seq<Op>, nat) -> bool, s: State, ops: seq<Op>, next: seq<Op>, src: nat, k: nat)
    requires IsDoesCross(does, s, src) && src < |s.mix| && k < |s.mix| && does(ops, k)
    requires next == if src == k then ops else ops + [Cross(src, k)]
    ensures does(next, k + 1)
  {
    assert DoesCross(ops, s, src, k);
    CrossNext(s, ops, next, src, k);
  }

  /** `does` stands for `DoesCross`, whose definition this does not need. */
  lemma {:induction false} CrossPassBy(does: (seq<Op>, nat) -> bool, s: State, src: nat, k: nat)
    requires IsDoesCross(does, s, src) && src < |s.mix| && k <= |s.mix| && does(CrossRow(src, 0), 0)
    ensures does(CrossRow(src, k), k)
  {
    if k > 0 {
      CrossPassBy(does, s, src, k - 1);
      CrossRowNext(src, k - 1);
      CrossNextBy(does, s, CrossRow(src, k - 1), CrossRow(src, k), src, k - 1);
    }
  }

  /** A pass of the cross-mixing over the first `k` elements does that. */
  lemma CrossPass(s: State, src: nat, k: nat)
    requires src < |s.mix| && k <= |s.mix|
    ensures DoesCross(CrossRow(src, k), s, src, k)
  {
    NotYetCrossed(s, src);
    var does := (ops: seq<Op>, j: nat) => DoesCross(ops, s, src, j);
    CrossPassBy(does, s, src, k);
    assert does(CrossRow(src, k), k);
  }

  /** The store once a pass for a word beyond it has done `k` elements: the word has been mixed, hashed
      anew each time, into every one. */
  ghost predicate Absorbed(s: State, t: seq<bv32>, word: bv32, k: nat) {
    && |t| == |s.mix|
    && (forall d :: 0 <= d < k <= |t| ==>
        t[d] == MixWords(s.mix[d], HashWord(word, ConstAfter(s.hashConst, d))))
    && (forall d :: k <= d < |t| ==> t[d] == s.mix[d])
  }

  lemma AbsorbedStep(s: State, t: State, word: bv32, k: nat)
    requires Absorbed(s, t.mix, word, k) && k < |s.mix| && t.hashConst == ConstAfter(s.hashConst, k)
    ensures Absorbed(s, Do(t, Absorb(word, k)).mix, word, k + 1)
  {
  }

  lemma {:induction false} AbsorbPass(s: State, word: bv32, k: nat)
    requires k <= |s.mix|
    ensures AllFit(AbsorbRow(word, k), |s.mix|) && Absorbed(s, DoAll(s, AbsorbRow(word, k)).mix, word, k)
  {
    if k > 0 {
      AbsorbPass(s, word, k - 1);
      AbsorbNext(s, AbsorbRow(word, k - 1), word, k - 1);
    }
  }

  lemma AbsorbNext(s: State, ops: seq<Op>, word: bv32, k: nat)
    requires AllFit(ops, |s.mix|) && |ops| == k < |s.mix| && Absorbed(s, DoAll(s, ops).mix, word, k)
    ensures AllFit(ops + [Absorb(word, k)], |s.mix|)
    ensures Absorbed(s, DoAll(s, ops + [Absorb(word, k)]).mix, word, k + 1)
  {
    OneMore(s, ops, Absorb(word, k));
    AbsorbedStep(s, DoAll(s, ops), word, k);
  }

  /** Every output word depends on one element of the store, all of it: the one at its position, counted
      around. */
  lemma OutputTells(m: seq<bv32>, m': seq<bv32>, length: nat, k: nat)
    requires |m| == |m'| >= 1 && k < length
    ensures Generated(m, length)[k] == Generated(m', length)[k] <==> m[k % |m|] == m'[k % |m|]
  {
    if Generated(m, length)[k] == Generated(m', length)[k] {
      OutWordInjective(m[k % |m|], m'[k % |m|], k);
    }
  }

  // ----- a worked example -----

  lemma ExampleOps()
    ensures StoreOps(2) == [Load(0)] + [Load(1)] + [Cross(0, 1)] + [Cross(1, 0)]
    ensures AbsorbOps([3, 4], 2) == [Absorb(3, 0)] + [Absorb(3, 1)] + [Absorb(4, 0)] + [Absorb(4, 1)]
  {
    assert LoadOps(1) == LoadOps(0) + [Load(0)] && LoadOps(2) == LoadOps(1) + [Load(1)];
    assert CrossRow(0, 1) == CrossRow(0, 0) + [] && CrossRow(0, 2) == CrossRow(0, 1) + [Cross(0, 1)];
    assert CrossRow(1, 1) == CrossRow(1, 0) + [Cross(1, 0)] && CrossRow(1, 2) == CrossRow(1, 1) + [];
    assert CrossOps(2, 1) == CrossOps(2, 0) + CrossRow(0, 2) && CrossOps(2, 2) == CrossOps(2, 1) + CrossRow(1, 2);
    assert AbsorbRow(3, 1) == AbsorbRow(3, 0) + [Absorb(3, 0)] && AbsorbRow(3, 2) == AbsorbRow(3, 1) + [Absorb(3, 1)];
    assert AbsorbRow(4, 1) == AbsorbRow(4, 0) + [Absorb(4, 0)] && AbsorbRow(4, 2) == AbsorbRow(4, 1) + [Absorb(4, 1)];
    assert [3][..0] == [] && AbsorbOps([3], 2) == AbsorbOps([], 2) + AbsorbRow(3, 2);
    assert [3, 4][..1] == [3] && AbsorbOps([3, 4], 2) == AbsorbOps([3], 2) + AbsorbRow(4, 2);
  }

  lemma ExampleSteps()
    ensures Do(State([1, 2], 0x43b0d7e5), Load(0)) == State([0xe3e59261, 2], 0xae5a53a9)
    ensures Do(State([0xe3e59261, 2], 0xae5a53a9), Load(1)) == State([0xe3e59261, 0x93ac0813], 0x8488043d)
    ensures Do(State([0xe3e59261, 0x93ac0813], 0x8488043d), Cross(0, 1)) == State([0xe3e59261, 0x99d777ee], 0x5a9057e1)
    ensures Do(State([0xe3e59261, 0x99d777ee], 0x5a9057e1), Cross(1, 0)) == State([0xcf75c870, 0x99d777ee], 0x9205b1d5)
  {
  }

  lemma ExampleAbsorbs()
    ensures Do(State([0xcf75c870, 0x99d777ee], 0x9205b1d5), Absorb(3, 0)) == State([0x2d346f00, 0x99d777ee], 0xe9096e59)
    ensures Do(State([0x2d346f00, 0x99d777ee], 0xe9096e59), Absorb(3, 1)) == State([0x2d346f00, 0xba35453c], 0x8d5cb6ad)
    ensures Do(State([0x2d346f00, 0xba35453c], 0x8d5cb6ad), Absorb(4, 0)) == State([0x20e2e05a, 0xba35453c], 0x9bb16511)
    ensures Do(State([0x20e2e05a, 0xba35453c], 0x9bb16511), Absorb(4, 1)) == State([0x20e2e05a, 0x92d7377b], 0x00c238c5)
  {
  }

  lemma ExampleStore()
    ensures Stored([1, 2, 3, 4], 2) == State([0xcf75c870, 0x99d777ee], 0x9205b1d5)
  {
    ExampleOps();
    ExampleSteps();
    var s := State(Pad([1, 2, 3, 4], 2), INIT_A);
    assert Pad([1, 2, 3, 4], 2) == [1, 2];
    var one, two := [Load(0)], [Load(0)] + [Load(1)];
    assert [] + one == one;
    OneMore(s, [], Load(0));
    OneMore(s, one, Load(1));
    OneMore(s, two, Cross(0, 1));
    OneMore(s, two + [Cross(0, 1)], Cross(1, 0));
  }

  /** A store of two words, seeded with 1, 2, 3 and 4 in one round. */
  lemma ExampleMix()
    ensures Seeded([1, 2, 3, 4], 2, 1) == [0x20e2e05a, 0x92d7377b]
  {
    ExampleOps();
    ExampleAbsorbs();
    ExampleStore();
    assert Extra([1, 2, 3, 4], 2) == [3, 4];
    var s, two := Stored([1, 2, 3, 4], 2), [Absorb(3, 0)] + [Absorb(3, 1)];
    assert [] + [Absorb(3, 0)] == [Absorb(3, 0)];
    OneMore(s, [], Absorb(3, 0));
    OneMore(s, [Absorb(3, 0)], Absorb(3, 1));
    OneMore(s, two, Absorb(4, 0));
    OneMore(s, two + [Absorb(4, 0)], Absorb(4, 1));
  }

  lemma ExampleConstants()
    ensures OutConst(0) == 0x8b51f9dd && OutConst(1) == Mul(0x8b51f9dd, 0x58f38ded)
    ensures OutConst(2) == Mul(OutConst(1), 0x58f38ded) && OutConst(3) == Mul(OutConst(2), 0x58f38ded)
  {
    OneTimes(INIT_B);
    OutConstNext(0);
    OutConstNext(1);
    OutConstNext(2);
  }

  /** And the first three words that it generates. */
  lemma ExampleOutput()
    ensures Generated([0x20e2e05a, 0x92d7377b], 3) == [0xe80f6fa0, 0x27c8ad62, 0xe02e5711]
  {
    ExampleConstants();
  }
}
