/** The imperative form of `seed_seq_fe`: nested loops over one in-place store. The body of each
    nested loop is a method of its own. */
module SeedSeqFeModule {
  import opened Words
  import opened SeedProgram
  import opened SeedSequence
  import Sequences

  /** `s` is where the program `ops` leads from `start`. */
  ghost predicate Ran(start: State, ops: seq<Op>, s: State) {
    AllFit(ops, |start.mix|) && s == DoAll(start, ops)
  }

  /** What is left to undo is `ops`, and undoing it from `s` leads to `target`. */
  ghost predicate Leads(s: State, ops: seq<Op>, target: State) {
    AllFit(ops, |s.mix|) && UndoAll(s, ops) == target
  }

  lemma RanStep(start: State, ops: seq<Op>, s: State, op: Op)
    requires Ran(start, ops, s) && Fits(op, |start.mix|)
    ensures Ran(start, ops + [op], Do(s, op))
  {
    assert (ops + [op])[..|ops + [op]| - 1] == ops;
  }

  lemma RanStart(start: State)
    ensures Ran(start, [], start)
  {
  }

  lemma RanOn(start: State, xs: seq<Op>, s: State, ys: seq<Op>, t: State)
    requires Ran(start, xs, s) && Ran(s, ys, t)
    ensures Ran(start, xs + ys, t)
  {
    DoAllConcat(start, xs, ys);
  }

  lemma LeadsStep(s: State, ops: seq<Op>, op: Op, target: State)
    requires Leads(s, ops + [op], target)
    ensures Fits(op, |s.mix|) && Leads(Undo(s, op), ops, target)
  {
    assert (ops + [op])[..|ops + [op]| - 1] == ops;
    assert (ops + [op])[|ops|] == op;
    assert forall i :: 0 <= i < |ops| ==> (ops + [op])[i] == ops[i];
  }

  lemma AbsorbOpsNext(extra: seq<bv32>, k: nat, n: nat)
    requires k < |extra|
    ensures AbsorbOps(extra[..k + 1], n) == AbsorbOps(extra[..k], n) + AbsorbRow(extra[k], n)
  {
    assert extra[..k + 1][..k] == extra[..k];
  }

  lemma StoredAfter(words: seq<bv32>, n: nat, loaded: State, s: State)
    requires Ran(State(Pad(words, n), INIT_A), LoadOps(n), loaded) && |loaded.mix| == n
    requires Ran(loaded, CrossOps(n, n), s)
    ensures s == Stored(words, n)
  {
    RanOn(State(Pad(words, n), INIT_A), LoadOps(n), loaded, CrossOps(n, n), s);
  }

  lemma MixedAfter(words: seq<bv32>, n: nat, stored: State, s: State)
    requires stored == Stored(words, n) && Ran(stored, AbsorbOps(Extra(words, n), n), s)
    ensures s.mix == Mix(words, n)
  {
  }

  function Smaller(a: nat, b: nat): nat {
    if a <= b then a else b
  }

  lemma PadAt(words: seq<bv32>, n: nat, i: nat)
    requires i < n
    ensures Pad(words, n)[i] == if i < |words| then words[i] else 0
  {
  }

  class SeedSeqFe {
    const mixRounds: nat
    const mixer: array<bv32>

    constructor (count: nat, mixRounds: nat, input: array<bv32>)
      requires count >= 1
      ensures this.mixRounds == mixRounds && fresh(mixer) && mixer.Length == count
      ensures mixer[..] == Seeded(input[..], count, mixRounds)
    {
      this.mixRounds := mixRounds;
      mixer := new bv32[count];
      new;
      ghost var words := input[..];
      Seed(input);
      assert input[..] == words;
    }

    method Seed(input: array<bv32>)
      modifies mixer
      ensures mixer[..] == Seeded(old(input[..]), mixer.Length, mixRounds)
    {
      MixEntropy(input);
      StirRounds();
    }

    /** The loop of `seed` that stirs `mixRounds - 1` times. */
    method StirRounds()
      modifies mixer
      ensures mixer[..] == Stirred(old(mixer[..]), if mixRounds == 0 then 0 else mixRounds - 1)
    {
      ghost var mixed := mixer[..];
      var i := 1;
      while i < mixRounds
        invariant 1 <= i && (i <= mixRounds || i == 1)
        invariant mixer[..] == Stirred(mixed, i - 1)
      {
        Stir();
        i := i + 1;
      }
      assert i - 1 == if mixRounds == 0 then 0 else mixRounds - 1;
    }

    method Stir()
      modifies mixer
      ensures mixer[..] == Mix(old(mixer[..]), mixer.Length)
    {
      MixEntropy(mixer);
    }

    /** `input` may be the store itself, as in `stir`: each word is read before it is overwritten. */
    method MixEntropy(input: array<bv32>)
      modifies mixer
      ensures mixer[..] == Mix(old(input[..]), mixer.Length)
    {
      ghost var words, n := input[..], mixer.Length;
      var hashConst, current := LoadPhase(input);
      hashConst := CrossPhase(hashConst, words);
      AbsorbPhase(input, current, hashConst, words);
    }

    method LoadPhase(input: array<bv32>) returns (hashConst: bv32, current: nat)
      modifies mixer
      ensures current == Smaller(mixer.Length, input.Length)
      ensures input != mixer ==> input[..] == old(input[..])
      ensures Ran(State(Pad(old(input[..]), mixer.Length), INIT_A), LoadOps(mixer.Length), State(mixer[..], hashConst))
    {
      ghost var words, n := input[..], mixer.Length;
      hashConst := INIT_A;
      current := 0;
      var i := 0;
      StartsLoading(input, words);
      while i < mixer.Length
        invariant Loading(input, words, i, hashConst) && current == Smaller(i, input.Length)
      {
        var word;
        word, current := NextWord(input, i, current, hashConst, words);
        hashConst := LoadNext(input, i, word, hashConst, words);
        i := i + 1;
      }
      IsLoaded(input, words, hashConst);
    }

    lemma StartsLoading(input: array<bv32>, words: seq<bv32>)
      requires input[..] == words
      ensures Loading(input, words, 0, INIT_A)
    {
      var padded := Pad(words, mixer.Length);
      RanStart(State(padded, INIT_A));
      assert mixer[..0] + padded[0..] == padded;
    }

    lemma IsLoaded(input: array<bv32>, words: seq<bv32>, hashConst: bv32)
      requires Loading(input, words, mixer.Length, hashConst)
      ensures Ran(State(Pad(words, mixer.Length), INIT_A), LoadOps(mixer.Length), State(mixer[..], hashConst))
    {
      var n := mixer.Length;
      assert mixer[..n] + Pad(words, n)[n..] == mixer[..];
    }

    /** The store is loaded up to `i`, and the input is as it was from there on. */
    ghost predicate Loading(input: array<bv32>, words: seq<bv32>, i: nat, hashConst: bv32)
      reads mixer, input
    {
      && i <= mixer.Length && input.Length == |words| && (input != mixer ==> input[..] == words)
      && (forall k :: i <= k < input.Length ==> input[k] == words[k])
      && Ran(State(Pad(words, mixer.Length), INIT_A), LoadOps(i),
             State(mixer[..i] + Pad(words, mixer.Length)[i..], hashConst))
    }

    method LoadNext(input: array<bv32>, i: nat, word: bv32, hashConst: bv32, ghost words: seq<bv32>)
      returns (next: bv32)
      requires i < mixer.Length && Loading(input, words, i, hashConst) && word == Pad(words, mixer.Length)[i]
      modifies mixer
      ensures Loading(input, words, i + 1, next)
    {
      ghost var padded := Pad(words, mixer.Length);
      RanStep(State(padded, INIT_A), LoadOps(i), State(mixer[..i] + padded[i..], hashConst), Load(i));
      next := LoadStep(i, word, hashConst, padded);
    }

    /** The next input word, or zero when the input is used up. */
    method NextWord(input: array<bv32>, i: nat, from: nat, ghost hashConst: bv32, ghost words: seq<bv32>)
      returns (word: bv32, current: nat)
      requires i < mixer.Length && Loading(input, words, i, hashConst) && from == Smaller(i, input.Length)
      ensures word == Pad(words, mixer.Length)[i] && current == Smaller(i + 1, input.Length)
    {
      word, current := 0, from;
      if current != input.Length {
        word := input[current];
        current := current + 1;
      }
      PadAt(words, mixer.Length, i);
    }

    method LoadStep(i: nat, word: bv32, hashConst: bv32, ghost padded: seq<bv32>) returns (next: bv32)
      requires i < mixer.Length == |padded| && word == padded[i]
      modifies mixer
      ensures forall k :: 0 <= k < mixer.Length && k != i ==> mixer[k] == old(mixer[k])
      ensures State(mixer[..i + 1] + padded[i + 1..], next)
           == Do(State(old(mixer[..i]) + padded[i..], hashConst), Load(i))
    {
      var hashed;
      hashed, next := Hash(word, hashConst);
      ghost var before := mixer[..i] + padded[i..];
      mixer[i] := hashed;
      assert mixer[..i + 1] + padded[i + 1..] == before[i := hashed];
    }

    method CrossPhase(initial: bv32, ghost words: seq<bv32>) returns (hashConst: bv32)
      requires Ran(State(Pad(words, mixer.Length), INIT_A), LoadOps(mixer.Length), State(mixer[..], initial))
      modifies mixer
      ensures State(mixer[..], hashConst) == Stored(words, mixer.Length)
    {
      ghost var n, loaded := mixer.Length, State(mixer[..], initial);
      hashConst := CrossAll(initial);
      StoredAfter(words, n, loaded, State(mixer[..], hashConst));
    }

    method CrossAll(initial: bv32) returns (hashConst: bv32)
      modifies mixer
      ensures Ran(State(old(mixer[..]), initial), CrossOps(mixer.Length, mixer.Length), State(mixer[..], hashConst))
    {
      ghost var loaded := State(mixer[..], initial);
      hashConst := initial;
      var src := 0;
      RanStart(loaded);
      while src < mixer.Length
        invariant src <= mixer.Length
        invariant Ran(loaded, CrossOps(mixer.Length, src), State(mixer[..], hashConst))
      {
        hashConst := CrossPass(src, hashConst, loaded);
        src := src + 1;
      }
    }

    method AbsorbPhase(input: array<bv32>, first: nat, initial: bv32, ghost words: seq<bv32>)
      requires first == Smaller(mixer.Length, |words|)
      requires input.Length == |words| && (input != mixer ==> input[..] == words)
      requires State(mixer[..], initial) == Stored(words, mixer.Length)
      modifies mixer
      ensures mixer[..] == Mix(words, mixer.Length)
    {
      ghost var extra, stored := Extra(words, mixer.Length), State(mixer[..], initial);
      var hashConst, current := initial, first;
      RanStart(stored);
      assert extra[..0] == [];
      while current != input.Length
        invariant first <= current <= input.Length
        invariant input != mixer ==> input[..] == words
        invariant Ran(stored, AbsorbOps(extra[..current - first], mixer.Length), State(mixer[..], hashConst))
        decreases input.Length - current
      {
        ghost var k := current - first;
        assert input[current] == extra[k];
        AbsorbOpsNext(extra, k, mixer.Length);
        hashConst := AbsorbPass(input[current], hashConst, stored, AbsorbOps(extra[..k], mixer.Length));
        current := current + 1;
      }
      assert extra[..current - first] == extra;
      MixedAfter(words, mixer.Length, stored, State(mixer[..], hashConst));
    }

    method CrossPass(src: nat, initial: bv32, ghost loaded: State) returns (hashConst: bv32)
      requires src < mixer.Length == |loaded.mix|
      requires Ran(loaded, CrossOps(mixer.Length, src), State(mixer[..], initial))
      modifies mixer
      ensures Ran(loaded, CrossOps(mixer.Length, src + 1), State(mixer[..], hashConst))
    {
      hashConst := initial;
      ghost var first := State(mixer[..], initial);
      RanStart(first);
      var dest := 0;
      while dest < mixer.Length
        invariant dest <= mixer.Length
        invariant Ran(first, CrossRow(src, dest), State(mixer[..], hashConst))
      {
        CrossRowNext(src, dest);
        if src != dest {
          RanStep(first, CrossRow(src, dest), State(mixer[..], hashConst), Cross(src, dest));
          hashConst := CrossStep(src, dest, hashConst);
        }
        dest := dest + 1;
      }
      RanOn(loaded, CrossOps(mixer.Length, src), first, CrossRow(src, mixer.Length), State(mixer[..], hashConst));
    }

    method CrossStep(src: nat, dest: nat, hashConst: bv32) returns (next: bv32)
      requires src < mixer.Length && dest < mixer.Length && src != dest
      modifies mixer
      ensures State(mixer[..], next) == Do(State(old(mixer[..]), hashConst), Cross(src, dest))
    {
      var hashed;
      hashed, next := Hash(mixer[src], hashConst);
      mixer[dest] := MixWords(mixer[dest], hashed);
    }

    method AbsorbPass(word: bv32, initial: bv32, ghost stored: State, ghost done: seq<Op>) returns (hashConst: bv32)
      requires |stored.mix| == mixer.Length
      requires Ran(stored, done, State(mixer[..], initial))
      modifies mixer
      ensures Ran(stored, done + AbsorbRow(word, mixer.Length), State(mixer[..], hashConst))
    {
      hashConst := initial;
      ghost var first := State(mixer[..], initial);
      RanStart(first);
      var dest := 0;
      while dest < mixer.Length
        invariant dest <= mixer.Length
        invariant Ran(first, AbsorbRow(word, dest), State(mixer[..], hashConst))
      {
        RanStep(first, AbsorbRow(word, dest), State(mixer[..], hashConst), Absorb(word, dest));
        hashConst := AbsorbStep(word, dest, hashConst);
        dest := dest + 1;
      }
      RanOn(stored, done, first, AbsorbRow(word, mixer.Length), State(mixer[..], hashConst));
    }

    method AbsorbStep(word: bv32, dest: nat, hashConst: bv32) returns (next: bv32)
      requires dest < mixer.Length
      modifies mixer
      ensures State(mixer[..], next) == Do(State(old(mixer[..]), hashConst), Absorb(word, dest))
    {
      var hashed;
      hashed, next := Hash(word, hashConst);
      mixer[dest] := MixWords(mixer[dest], hashed);
    }

    /** Writes the words that rebuild this state, by running the mixing backwards on a copy. */
    method Param() returns (dest: seq<bv32>)
      ensures dest == Params(mixer[..], mixRounds)
    {
      InvertConstants();
      var invA := FastExp(MULT_A, MAX_EXPONENT);
      var mixInvL := FastExp(MIX_MULT_L, MAX_EXPONENT);
      var copy := new bv32[mixer.Length](i requires 0 <= i < mixer.Length reads mixer => mixer[i]);
      assert copy[..] == mixer[..];
      ghost var words := mixer[..];
      var round := 0;
      while round < mixRounds
        invariant round <= mixRounds
        invariant mixer[..] == words
        invariant Params(copy[..], mixRounds - round) == Params(words, mixRounds)
      {
        UnmixRound(copy, invA, mixInvL);
        round := round + 1;
      }
      return copy[..];
    }

    method Generate(dest: array<bv32>)
      requires mixer.Length >= 1 && dest != mixer
      modifies dest
      ensures dest[..] == Generated(mixer[..], dest.Length)
    {
      var src := 0;
      var hashConst := INIT_B;
      OneTimes(INIT_B);
      for k := 0 to dest.Length
        invariant src == k % mixer.Length
        invariant hashConst == OutConst(k)
        invariant forall j :: 0 <= j < k ==> dest[j] == OutWord(mixer[j % mixer.Length], j)
      {
        var dataval := mixer[src];
        CyclicNext(k, mixer.Length);
        src := src + 1;
        if src == mixer.Length {
          src := 0;
        }
        dataval := Xor(dataval, hashConst);
        OutConstNext(k);
        hashConst := Mul(hashConst, MULT_B);
        dataval := Mul(dataval, hashConst);
        dataval := XorShift(dataval);
        dest[k] := dataval;
      }
    }
  }

  /** The lambda `hash` inside `mix_entropy`: returns the hash and the advanced constant. */
  method Hash(value: bv32, hashConst: bv32) returns (hashed: bv32, next: bv32)
    ensures hashed == HashWord(value, hashConst) && next == Mul(hashConst, MULT_A)
  {
    hashed := Xor(value, hashConst);
    next := Mul(hashConst, MULT_A);
    hashed := Mul(hashed, next);
    hashed := XorShift(hashed);
  }

  lemma CyclicNext(k: nat, n: nat)
    requires n >= 1
    ensures (k + 1) % n == if k % n + 1 == n then 0 else k % n + 1
  {
    var q, r := k / n, k % n;
    if r + 1 == n {
      RemainderIs(k + 1, n, q + 1, 0);
    } else {
      RemainderIs(k + 1, n, q, r + 1);
    }
  }

  lemma RemainderIs(k: nat, n: nat, q: nat, r: nat)
    requires r < n && k == q * n + r
    ensures k % n == r
  {
    var d := k / n - q;
    MultipleIsLarge(d, n);
    assert (k / n) * n - q * n == d * n;
  }

  lemma MultipleIsLarge(d: int, n: nat)
    ensures d >= 1 ==> d * n >= n
    ensures d <= -1 ==> d * n + n <= 0
  {
  }

  /** One round of `param`, in place. */
  method UnmixRound(copy: array<bv32>, invA: bv32, mixInvL: bv32)
    requires invA == INV_A && mixInvL == MIX_INV_L
    modifies copy
    ensures copy[..] == Unmixed(old(copy[..]))
  {
    var n := copy.Length;
    StoreOpsFit(n);
    var power := FastExp(MULT_A, (n * n) % WORD_COUNT);
    var hashConst := Mul(INIT_A, power);
    ghost var target := UndoAll(State(copy[..], hashConst), StoreOps(n));
    hashConst := UncrossPhase(copy, hashConst, invA, mixInvL, target);
    UnloadPhase(copy, hashConst, invA, target);
  }

  method UncrossPhase(copy: array<bv32>, initial: bv32, invA: bv32, mixInvL: bv32, ghost target: State)
    returns (hashConst: bv32)
    requires invA == INV_A && mixInvL == MIX_INV_L
    requires Leads(State(copy[..], initial), StoreOps(copy.Length), target)
    modifies copy
    ensures Leads(State(copy[..], hashConst), LoadOps(copy.Length), target)
  {
    ghost var n, load := copy.Length, LoadOps(copy.Length);
    hashConst := initial;
    var src: nat := copy.Length;
    while src > 0
      invariant src <= n
      invariant Leads(State(copy[..], hashConst), load + CrossOps(n, src), target)
    {
      src := src - 1;
      Sequences.Regroup(load, CrossOps(n, src), CrossRow(src, n));
      hashConst := UncrossPass(copy, src, hashConst, invA, mixInvL, load + CrossOps(n, src), target);
    }
    assert load + CrossOps(n, 0) == load;
  }

  method UncrossPass(copy: array<bv32>, src: nat, initial: bv32, invA: bv32, mixInvL: bv32, ghost rest: seq<Op>,
                     ghost target: State)
    returns (hashConst: bv32)
    requires invA == INV_A && mixInvL == MIX_INV_L && src < copy.Length
    requires Leads(State(copy[..], initial), rest + CrossRow(src, copy.Length), target)
    modifies copy
    ensures Leads(State(copy[..], hashConst), rest, target)
  {
    hashConst := initial;
    var dest: nat := copy.Length;
    while dest > 0
      invariant dest <= copy.Length
      invariant Leads(State(copy[..], hashConst), rest + CrossRow(src, dest), target)
    {
      dest := dest - 1;
      if src != dest {
        assert rest + CrossRow(src, dest + 1) == rest + CrossRow(src, dest) + [Cross(src, dest)];
        LeadsStep(State(copy[..], hashConst), rest + CrossRow(src, dest), Cross(src, dest), target);
        hashConst := UncrossStep(copy, src, dest, hashConst, invA, mixInvL);
      } else {
        assert CrossRow(src, dest + 1) == CrossRow(src, dest);
      }
    }
    assert rest + CrossRow(src, 0) == rest;
  }

  method UncrossStep(copy: array<bv32>, src: nat, dest: nat, multConst: bv32, invA: bv32, mixInvL: bv32)
    returns (hashConst: bv32)
    requires src < copy.Length && dest < copy.Length && src != dest
    requires invA == INV_A && mixInvL == MIX_INV_L
    modifies copy
    ensures State(copy[..], hashConst) == Undo(State(old(copy[..]), multConst), Cross(src, dest))
  {
    var revhashed := copy[src];
    hashConst := Mul(multConst, invA);
    revhashed := Xor(revhashed, hashConst);
    revhashed := Mul(revhashed, multConst);
    revhashed := XorShift(revhashed);
    var unmixed := copy[dest];
    unmixed := XorShift(unmixed);
    unmixed := Plus(unmixed, Mul(MIX_MULT_R, revhashed));
    unmixed := Mul(unmixed, mixInvL);
    copy[dest] := unmixed;
  }

  method UnloadPhase(copy: array<bv32>, initial: bv32, invA: bv32, ghost target: State)
    requires invA == INV_A
    requires Leads(State(copy[..], initial), LoadOps(copy.Length), target)
    modifies copy
    ensures copy[..] == target.mix
  {
    var hashConst := initial;
    var i: nat := copy.Length;
    while i > 0
      invariant i <= copy.Length
      invariant Leads(State(copy[..], hashConst), LoadOps(i), target)
    {
      i := i - 1;
      LeadsStep(State(copy[..], hashConst), LoadOps(i), Load(i), target);
      var unhashed := copy[i];
      unhashed := XorShift(unhashed);
      var inverse := FastExp(hashConst, MAX_EXPONENT);
      unhashed := Mul(unhashed, inverse);
      hashConst := Mul(hashConst, invA);
      unhashed := Xor(unhashed, hashConst);
      copy[i] := unhashed;
    }
  }
}
