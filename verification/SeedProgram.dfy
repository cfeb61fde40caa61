/** The mixing of `seed_seq_fe` as a straight-line program of reversible in-place steps.
    Each pass of the nested loops of `seed_seq_fe` contributes one step; a step consumes the running
    hash constant and moves it on. */
module SeedProgram {
  import opened Words

  const INIT_A: bv32 := 0x43b0d7e5
  const MULT_A: bv32 := 0x931e8875
  const MIX_MULT_L: bv32 := 0xca01f9dd
  const MIX_MULT_R: bv32 := 0x4973f715

  // The inverses that `seed_seq_fe` computes by exponentiation (see `InvertConstants`).
  const INV_A: bv32 := 0xb02507dd
  const MIX_INV_L: bv32 := 0x16ea2675
  const MIX_INV_R: bv32 := 0xcd6da03d

  /** The entropy store together with the running hash constant. */
  datatype State = State(mix: seq<bv32>, hashConst: bv32)

  datatype Op =
    | Load(at: nat)                // elem = hash(elem), the elements holding the padded input
    | Cross(src: nat, dest: nat)   // dest = mix(dest, hash(src))
    | Absorb(word: bv32, to: nat)  // dest = mix(dest, hash(word)) for an input beyond the store

  predicate Fits(op: Op, n: nat) {
    match op
    case Load(j) => j < n
    case Cross(i, j) => i < n && j < n && i != j
    case Absorb(_, j) => j < n
  }

  ghost predicate AllFit(ops: seq<Op>, n: nat) {
    forall i :: 0 <= i < |ops| ==> Fits(ops[i], n)
  }

  function HashWord(value: bv32, hashConst: bv32): bv32 {
    XorShift(Mul(Xor(value, hashConst), Mul(hashConst, MULT_A)))
  }

  function MixWords(x: bv32, y: bv32): bv32 {
    XorShift(Minus(Mul(MIX_MULT_L, x), Mul(MIX_MULT_R, y)))
  }

  /** `param` recomputes a hash from the constant that follows it. */
  function Rehash(value: bv32, nextConst: bv32): bv32 {
    XorShift(Mul(Xor(value, Mul(nextConst, INV_A)), nextConst))
  }

  function UnhashWord(hashed: bv32, nextConst: bv32): bv32 {
    Xor(Mul(XorShift(hashed), Pow(nextConst, MAX_EXPONENT)), Mul(nextConst, INV_A))
  }

  function UnmixWords(mixed: bv32, y: bv32): bv32 {
    Mul(Plus(XorShift(mixed), Mul(MIX_MULT_R, y)), MIX_INV_L)
  }

  function Do(s: State, op: Op): (r: State)
    requires Fits(op, |s.mix|)
    ensures |r.mix| == |s.mix|
  {
    var c := s.hashConst;
    var m := match op
      case Load(j) => s.mix[j := HashWord(s.mix[j], c)]
      case Cross(i, j) => s.mix[j := MixWords(s.mix[j], HashWord(s.mix[i], c))]
      case Absorb(w, j) => s.mix[j := MixWords(s.mix[j], HashWord(w, c))];
    State(m, Mul(c, MULT_A))
  }

  function Undo(s: State, op: Op): (r: State)
    requires Fits(op, |s.mix|)
    ensures |r.mix| == |s.mix|
  {
    var c := s.hashConst;
    var m := match op
      case Load(j) => s.mix[j := UnhashWord(s.mix[j], c)]
      case Cross(i, j) => s.mix[j := UnmixWords(s.mix[j], Rehash(s.mix[i], c))]
      case Absorb(w, j) => s.mix[j := UnmixWords(s.mix[j], Rehash(w, c))];
    State(m, Mul(c, INV_A))
  }

  function DoAll(s: State, ops: seq<Op>): (r: State)
    requires AllFit(ops, |s.mix|)
    ensures |r.mix| == |s.mix|
    decreases |ops|
  {
    if ops == [] then s else Do(DoAll(s, ops[..|ops| - 1]), ops[|ops| - 1])
  }

  /** Undoes the steps last to first. */
  function UndoAll(s: State, ops: seq<Op>): (r: State)
    requires AllFit(ops, |s.mix|)
    ensures |r.mix| == |s.mix|
    decreases |ops|
  {
    if ops == [] then s else UndoAll(Undo(s, ops[|ops| - 1]), ops[..|ops| - 1])
  }

  // ----- constants -----

  lemma ConstantsAreOdd()
    ensures Odd(INIT_A) && Odd(MULT_A) && Odd(MIX_MULT_L) && Odd(MIX_MULT_R)
  {
  }

  /** What `fast_exp(MULT_A, -1)` and `fast_exp(MIX_MULT_L, -1)` evaluate to. */
  lemma InvertConstants()
    ensures Pow(MULT_A, MAX_EXPONENT) == INV_A
    ensures Pow(MIX_MULT_L, MAX_EXPONENT) == MIX_INV_L
  {
    ConstantsAreOdd();
    InverseLiterals();
    OddInverse(MULT_A);
    InverseIsUnique(MULT_A, Pow(MULT_A, MAX_EXPONENT), INV_A);
    OddInverse(MIX_MULT_L);
    InverseIsUnique(MIX_MULT_L, Pow(MIX_MULT_L, MAX_EXPONENT), MIX_INV_L);
  }

  lemma InverseLiterals()
    ensures Mul(MULT_A, INV_A) == 1 && Mul(INV_A, MULT_A) == 1
    ensures Mul(MIX_MULT_L, MIX_INV_L) == 1 && Mul(MIX_INV_L, MIX_MULT_L) == 1
    ensures Mul(MIX_MULT_R, MIX_INV_R) == 1
  {
  }

  // ----- the word functions are reversible -----

  lemma ConstantBack(c: bv32)
    ensures Mul(Mul(c, MULT_A), INV_A) == c
    ensures Mul(Mul(c, INV_A), MULT_A) == c
  {
    InverseLiterals();
    MulCancel(c, MULT_A, INV_A);
    MulCancel(c, INV_A, MULT_A);
  }

  lemma RehashIsHash(value: bv32, c: bv32)
    ensures Rehash(value, Mul(c, MULT_A)) == HashWord(value, c)
  {
    ConstantBack(c);
  }

  lemma InverseOfOdd(x: bv32)
    requires Odd(x)
    ensures Mul(x, Pow(x, MAX_EXPONENT)) == 1 && Mul(Pow(x, MAX_EXPONENT), x) == 1
  {
    OddInverse(x);
    MulComm(x, Pow(x, MAX_EXPONENT));
  }

  lemma UnhashHash(value: bv32, c: bv32)
    requires Odd(c)
    ensures UnhashWord(HashWord(value, c), Mul(c, MULT_A)) == value
  {
    var next := Mul(c, MULT_A);
    ConstantBack(c);
    NextIsOdd(c);
    InverseOfOdd(next);
    XorShiftInvolution(Mul(Xor(value, c), next));
    MulCancel(Xor(value, c), next, Pow(next, MAX_EXPONENT));
    XorCancel(value, c);
  }

  lemma HashUnhash(hashed: bv32, c: bv32)
    requires Odd(c)
    ensures HashWord(UnhashWord(hashed, Mul(c, MULT_A)), c) == hashed
  {
    var next := Mul(c, MULT_A);
    ConstantBack(c);
    NextIsOdd(c);
    InverseOfOdd(next);
    XorCancel(Mul(XorShift(hashed), Pow(next, MAX_EXPONENT)), c);
    MulCancel(XorShift(hashed), Pow(next, MAX_EXPONENT), next);
    XorShiftInvolution(hashed);
  }

  lemma NextIsOdd(c: bv32)
    requires Odd(c)
    ensures Odd(Mul(c, MULT_A)) && Odd(Mul(c, INV_A))
  {
    OddTimesOdd(c, MULT_A);
    OddTimesOdd(c, INV_A);
  }

  lemma UnmixMix(x: bv32, y: bv32)
    ensures UnmixWords(MixWords(x, y), y) == x
  {
    var l, r := Mul(MIX_MULT_L, x), Mul(MIX_MULT_R, y);
    XorShiftInvolution(Minus(l, r));
    PlusCancel(l, r);
    ConstantFactor(x);
  }

  lemma ConstantFactor(x: bv32)
    ensures Mul(Mul(MIX_MULT_L, x), MIX_INV_L) == x
    ensures Mul(MIX_MULT_L, Mul(x, MIX_INV_L)) == x
    ensures Mul(Mul(MIX_MULT_R, x), MIX_INV_R) == x
  {
    InverseLiterals();
    MulCancel(x, MIX_MULT_L, MIX_INV_L);
    MulComm(MIX_MULT_L, x);
    MulCancel(x, MIX_INV_L, MIX_MULT_L);
    MulComm(MIX_MULT_L, Mul(x, MIX_INV_L));
    MulCancel(x, MIX_MULT_R, MIX_INV_R);
    MulComm(MIX_MULT_R, x);
  }

  lemma MixUnmix(mixed: bv32, y: bv32)
    ensures MixWords(UnmixWords(mixed, y), y) == mixed
  {
    var r := Mul(MIX_MULT_R, y);
    ConstantFactor(Plus(XorShift(mixed), r));
    PlusCancel(XorShift(mixed), r);
    XorShiftInvolution(mixed);
  }

  /** Mixing is injective in the hashed word too. */
  lemma MixInjective(x: bv32, y: bv32, y': bv32)
    requires MixWords(x, y) == MixWords(x, y')
    ensures y == y'
  {
    var l, r, r' := Mul(MIX_MULT_L, x), Mul(MIX_MULT_R, y), Mul(MIX_MULT_R, y');
    XorShiftInvolution(Minus(l, r));
    XorShiftInvolution(Minus(l, r'));
    PlusCancel(l, r);
    PlusCancel(l, r');
    ConstantFactor(y);
    ConstantFactor(y');
  }

  // ----- steps and whole programs are reversible -----

  lemma DoKeepsOdd(s: State, op: Op)
    requires Fits(op, |s.mix|) && Odd(s.hashConst)
    ensures Odd(Do(s, op).hashConst)
  {
    NextIsOdd(s.hashConst);
  }

  lemma UndoKeepsOdd(s: State, op: Op)
    requires Fits(op, |s.mix|) && Odd(s.hashConst)
    ensures Odd(Undo(s, op).hashConst)
  {
    NextIsOdd(s.hashConst);
  }

  lemma UndoDo(s: State, op: Op)
    requires Fits(op, |s.mix|) && Odd(s.hashConst)
    ensures Undo(Do(s, op), op) == s
  {
    var c := s.hashConst;
    ConstantBack(c);
    match op
    case Load(j) =>
      UnhashHash(s.mix[j], c);
    case Cross(i, j) =>
      RehashIsHash(s.mix[i], c);
      UnmixMix(s.mix[j], HashWord(s.mix[i], c));
    case Absorb(w, j) =>
      RehashIsHash(w, c);
      UnmixMix(s.mix[j], HashWord(w, c));
  }

  lemma DoUndo(s: State, op: Op)
    requires Fits(op, |s.mix|) && Odd(s.hashConst)
    ensures Do(Undo(s, op), op) == s
  {
    var c := Mul(s.hashConst, INV_A);
    ConstantBack(s.hashConst);
    NextIsOdd(s.hashConst);
    match op
    case Load(j) =>
      HashUnhash(s.mix[j], c);
    case Cross(i, j) =>
      RehashIsHash(s.mix[i], c);
      MixUnmix(s.mix[j], HashWord(s.mix[i], c));
    case Absorb(w, j) =>
      RehashIsHash(w, c);
      MixUnmix(s.mix[j], HashWord(w, c));
  }

  lemma {:induction false} DoAllKeepsOdd(s: State, ops: seq<Op>)
    requires AllFit(ops, |s.mix|) && Odd(s.hashConst)
    ensures Odd(DoAll(s, ops).hashConst)
    decreases |ops|
  {
    if ops == [] {
    } else {
      var front := ops[..|ops| - 1];
      DoAllKeepsOdd(s, front);
      DoKeepsOdd(DoAll(s, front), ops[|ops| - 1]);
    }
  }

  /** Running a program and then its reversal restores the state. */
  lemma {:induction false} UndoAllDoAll(s: State, ops: seq<Op>)
    requires AllFit(ops, |s.mix|) && Odd(s.hashConst)
    ensures UndoAll(DoAll(s, ops), ops) == s
    decreases |ops|
  {
    if ops == [] {
    } else {
      var front := ops[..|ops| - 1];
      DoAllKeepsOdd(s, front);
      UndoDo(DoAll(s, front), ops[|ops| - 1]);
      UndoAllDoAll(s, front);
    }
  }

  /** Running a program on the result of its reversal restores the state. */
  lemma {:induction false} DoAllUndoAll(s: State, ops: seq<Op>)
    requires AllFit(ops, |s.mix|) && Odd(s.hashConst)
    ensures DoAll(UndoAll(s, ops), ops) == s
    ensures Odd(UndoAll(s, ops).hashConst)
    decreases |ops|
  {
    if ops == [] {
    } else {
      var last := ops[|ops| - 1];
      UndoKeepsOdd(s, last);
      DoAllUndoAll(Undo(s, last), ops[..|ops| - 1]);
      DoUndo(s, last);
    }
  }

  /** Two runs of one program that end in the same store with the same start constant began alike. */
  lemma {:induction false} DoAllInjective(s: State, t: State, ops: seq<Op>)
    requires |s.mix| == |t.mix| && AllFit(ops, |s.mix|)
    requires Odd(s.hashConst) && s.hashConst == t.hashConst
    requires DoAll(s, ops).mix == DoAll(t, ops).mix
    ensures s == t
    decreases |ops|
  {
    DoAllConstant(s, ops);
    DoAllConstant(t, ops);
    UndoAllDoAll(s, ops);
    UndoAllDoAll(t, ops);
  }

  /** The constant moves on by one power of `MULT_A` per step, whatever the data. */
  lemma {:induction false} DoAllConstant(s: State, ops: seq<Op>)
    requires AllFit(ops, |s.mix|)
    ensures DoAll(s, ops).hashConst == Mul(s.hashConst, Pow(MULT_A, |ops|))
    decreases |ops|
  {
    if ops == [] {
      OneTimes(s.hashConst);
    } else {
      var k := |ops| - 1;
      DoAllConstant(s, ops[..k]);
      MulAssoc(s.hashConst, Pow(MULT_A, k), MULT_A);
      MulComm(MULT_A, Pow(MULT_A, k));
    }
  }

  lemma {:induction false} UndoAllConstant(s: State, ops: seq<Op>, start: bv32)
    requires AllFit(ops, |s.mix|)
    requires s.hashConst == Mul(start, Pow(MULT_A, |ops|))
    ensures UndoAll(s, ops).hashConst == start
    decreases |ops|
  {
    if ops == [] {
      OneTimes(start);
    } else {
      var k := |ops| - 1;
      MulComm(MULT_A, Pow(MULT_A, k));
      MulAssoc(start, Pow(MULT_A, k), MULT_A);
      ConstantBack(Mul(start, Pow(MULT_A, k)));
      UndoAllConstant(Undo(s, ops[k]), ops[..k], start);
    }
  }

  lemma {:induction false} DoAllConcat(s: State, xs: seq<Op>, ys: seq<Op>)
    requires AllFit(xs, |s.mix|) && AllFit(ys, |s.mix|)
    ensures AllFit(xs + ys, |s.mix|)
    ensures DoAll(s, xs + ys) == DoAll(DoAll(s, xs), ys)
    decreases |ys|
  {
    if ys == [] {
      assert xs + ys == xs;
    } else {
      var front, last := ys[..|ys| - 1], ys[|ys| - 1];
      assert (xs + ys)[..|xs + ys| - 1] == xs + front;
      DoAllConcat(s, xs, front);
    }
  }
}
