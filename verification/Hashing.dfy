/** `utils::hash`: 32-bit FNV-1a and the Proton hash, and the collisions they cannot have. */
module Hashing {
  import opened Words

  type Step = (bv32, bv8) -> bv32

  /** One step for each byte, from the first to the last. */
  function Fold(step: Step, hash: bv32, data: seq<bv8>): bv32
    decreases |data|
  {
    if data == [] then hash else Fold(step, step(hash, data[0]), data[1..])
  }

  // ----- the steps -----

  const FNV_PRIME: bv32 := 0x0100_0193
  const FNV_INVERSE: bv32 := 0x359c_449b

  function ToWord(c: bv8): bv32 {
    c as bv32
  }

  /** A `char` as a 32-bit word: where `char` is signed, its sign is extended. */
  function Widen(c: bv8, signedChar: bool): bv32 {
    if signedChar && c >= 0x80 then 0xFFFF_FF00 + ToWord(c) else ToWord(c)
  }

  function FnvNext(hash: bv32, c: bv8, signedChar: bool): bv32 {
    Mul(Xor(hash, Widen(c, signedChar)), FNV_PRIME)
  }

  function FnvStep(signedChar: bool): Step {
    (hash, c) => FnvNext(hash, c, signedChar)
  }

  /** The hash rotated left by five bits. */
  function Rotate(hash: bv32): bv32 {
    (hash >> 27) + (hash << 5)
  }

  function ProtonNext(hash: bv32, c: bv8): bv32 {
    Plus(Rotate(hash), ToWord(c))
  }

  function Fnv(data: seq<bv8>, hash: bv32, signedChar: bool): bv32 {
    Fold(FnvStep(signedChar), hash, data)
  }

  function Proton(data: seq<bv8>): bv32 {
    Fold(ProtonNext, 0x5555_5555, data)
  }

  // ----- every step is a bijection of the hash, and no two bytes step alike -----

  ghost predicate Reversible(step: Step) {
    && (forall h, g, c :: step(h, c) == step(g, c) ==> h == g)
    && (forall h, c, d :: step(h, c) == step(h, d) ==> c == d)
  }

  lemma WidenSeparates(c: bv8, d: bv8, signedChar: bool)
    requires Widen(c, signedChar) == Widen(d, signedChar)
    ensures c == d
  {
  }

  lemma XorSeparates(h: bv32, x: bv32)
    ensures Xor(h, h ^ x) == x
  {
  }

  lemma FnvPrimeInverse()
    ensures Mul(FNV_PRIME, FNV_INVERSE) == 1
  {
  }

  lemma FnvUndone(h: bv32, c: bv8, signedChar: bool)
    ensures Mul(FnvNext(h, c, signedChar), FNV_INVERSE) == Xor(h, Widen(c, signedChar))
  {
    FnvPrimeInverse();
    MulCancel(Xor(h, Widen(c, signedChar)), FNV_PRIME, FNV_INVERSE);
  }

  lemma FnvSeparatesStates(h: bv32, g: bv32, c: bv8, signedChar: bool)
    requires FnvNext(h, c, signedChar) == FnvNext(g, c, signedChar)
    ensures h == g
  {
    FnvUndone(h, c, signedChar);
    FnvUndone(g, c, signedChar);
    var w := Widen(c, signedChar);
    XorCancel(h, w);
    XorCancel(g, w);
  }

  lemma FnvSeparatesBytes(h: bv32, c: bv8, d: bv8, signedChar: bool)
    requires FnvNext(h, c, signedChar) == FnvNext(h, d, signedChar)
    ensures c == d
  {
    FnvUndone(h, c, signedChar);
    FnvUndone(h, d, signedChar);
    XorSeparates(h, Widen(c, signedChar));
    XorSeparates(h, Widen(d, signedChar));
    WidenSeparates(c, d, signedChar);
  }

  lemma FnvReversible(signedChar: bool)
    ensures Reversible(FnvStep(signedChar))
  {
    forall h: bv32, g: bv32, c: bv8 | FnvNext(h, c, signedChar) == FnvNext(g, c, signedChar) ensures h == g {
      FnvSeparatesStates(h, g, c, signedChar);
    }
    forall h: bv32, c: bv8, d: bv8 | FnvNext(h, c, signedChar) == FnvNext(h, d, signedChar) ensures c == d {
      FnvSeparatesBytes(h, c, d, signedChar);
    }
  }

  function RotateBack(hash: bv32): bv32 {
    (hash << 27) | (hash >> 5)
  }

  lemma RotateCancel(h: bv32)
    ensures RotateBack((h >> 27) + (h << 5)) == h
  {
  }

  lemma SumSeparates(r: bv32, x: bv32)
    ensures Minus(r + x, r) == x
  {
  }

  lemma ByteSeparates(c: bv8, d: bv8)
    requires ToWord(c) == ToWord(d)
    ensures c == d
  {
  }

  lemma ProtonReversible()
    ensures Reversible(ProtonNext)
  {
    var step: Step := ProtonNext;
    forall h, g, c | step(h, c) == step(g, c) ensures h == g {
      PlusCancel(Rotate(h), ToWord(c));
      PlusCancel(Rotate(g), ToWord(c));
      RotateCancel(h);
      RotateCancel(g);
    }
    forall h, c, d | step(h, c) == step(h, d) ensures c == d {
      SumSeparates(Rotate(h), ToWord(c));
      SumSeparates(Rotate(h), ToWord(d));
      ByteSeparates(c, d);
    }
  }

  // ----- collisions -----

  lemma {:induction false} FoldConcat(step: Step, hash: bv32, a: seq<bv8>, b: seq<bv8>)
    ensures Fold(step, hash, a + b) == Fold(step, Fold(step, hash, a), b)
    decreases |a|
  {
    if a == [] {
      assert a + b == b;
    } else {
      assert (a + b)[1..] == a[1..] + b;
      FoldConcat(step, step(hash, a[0]), a[1..], b);
    }
  }

  /** Hashing the same bytes from different states gives different states. */
  lemma {:induction false} FoldSeparates(step: Step, h: bv32, g: bv32, data: seq<bv8>)
    requires Reversible(step) && h != g
    ensures Fold(step, h, data) != Fold(step, g, data)
    decreases |data|
  {
    if data == [] {
    } else {
      var c := data[0];
      assert step(h, c) != step(g, c);
      FoldSeparates(step, step(h, c), step(g, c), data[1..]);
    }
  }

  predicate DifferOnlyAt(s: seq<bv8>, t: seq<bv8>, k: nat) {
    k < |s| == |t| && s[k] != t[k] && forall i :: 0 <= i < |s| && i != k ==> s[i] == t[i]
  }

  lemma OneByteSeparates(step: Step, hash: bv32, s: seq<bv8>, t: seq<bv8>, k: nat)
    requires Reversible(step) && DifferOnlyAt(s, t, k)
    ensures Fold(step, hash, s) != Fold(step, hash, t)
  {
    var prefix, suffix := s[..k], s[k + 1..];
    assert s == prefix + ([s[k]] + suffix) && t == prefix + ([t[k]] + suffix);
    FoldConcat(step, hash, prefix, [s[k]] + suffix);
    FoldConcat(step, hash, prefix, [t[k]] + suffix);
    var h := Fold(step, hash, prefix);
    assert ([s[k]] + suffix)[1..] == suffix && ([t[k]] + suffix)[1..] == suffix;
    FoldSeparates(step, step(h, s[k]), step(h, t[k]), suffix);
  }

  /** Two inputs of the same length that differ in exactly one byte never have the same FNV-1a hash,
      whatever the starting value and whether or not `char` is signed. */
  lemma FnvOneByte(s: seq<bv8>, t: seq<bv8>, k: nat, hash: bv32, signedChar: bool)
    requires DifferOnlyAt(s, t, k)
    ensures Fnv(s, hash, signedChar) != Fnv(t, hash, signedChar)
  {
    FnvReversible(signedChar);
    OneByteSeparates(FnvStep(signedChar), hash, s, t, k);
  }

  /** Nor the same Proton hash. */
  lemma ProtonOneByte(s: seq<bv8>, t: seq<bv8>, k: nat)
    requires DifferOnlyAt(s, t, k)
    ensures Proton(s) != Proton(t)
  {
    ProtonReversible();
    OneByteSeparates(ProtonNext, 0x5555_5555, s, t, k);
  }

  /** With a common ending, two inputs collide exactly when what comes before it does. */
  lemma CommonEnding(step: Step, hash: bv32, s: seq<bv8>, t: seq<bv8>, ending: seq<bv8>)
    requires Reversible(step)
    ensures Fold(step, hash, s + ending) == Fold(step, hash, t + ending) <==> Fold(step, hash, s) == Fold(step, hash, t)
  {
    FoldConcat(step, hash, s, ending);
    FoldConcat(step, hash, t, ending);
    if Fold(step, hash, s) != Fold(step, hash, t) {
      FoldSeparates(step, Fold(step, hash, s), Fold(step, hash, t), ending);
    }
  }

  /** A word is 2^27 times its first five bits, and the other 27. */
  lemma Digits(h: bv32)
    ensures h >> 27 < 32 && h & 0x7FF_FFFF < 0x800_0000
    ensures 0x800_0000 * (h >> 27) + (h & 0x7FF_FFFF) == h
  {
  }

  /** Its rotation is 2^5 times those, and the first five. */
  lemma RotateIsExact(h: bv32)
    ensures Rotate(h) == (h >> 27) + 32 * (h & 0x7FF_FFFF)
  {
  }

  /** The hash of nothing, of "a" and of "ab". */
  lemma ProtonKnownValues()
    ensures Proton([]) == 0x5555_5555
    ensures Proton([0x61]) == 0xaaaa_ab0b
    ensures Proton([0x61, 0x62]) == 0x5555_61d7
  {
    var a: seq<bv8> := [0x61, 0x62];
    assert a[1..] == [0x62] && [0x62 as bv8][1..] == [];
  }

  /** Published values of 32-bit FNV-1a, of the empty string and of "a", and the two of a byte that is
      negative as a signed `char`. */
  lemma FnvKnownValues(signedChar: bool)
    ensures Fnv([], 0x811c_9dc5, signedChar) == 0x811c_9dc5
    ensures Fnv([0x61], 0x811c_9dc5, signedChar) == 0xe40c_292c
    ensures Fnv([0x80], 0x811c_9dc5, signedChar) == if signedChar then 0x4f3b29f else 0x850b939f
  {
  }

  // ----- the loops -----

  method Fnv1a32(str: seq<bv8>, start: bv32, signedChar: bool) returns (hash: bv32)
    ensures hash == Fnv(str, start, signedChar)
  {
    hash := start;
    for i := 0 to |str|
      invariant Fold(FnvStep(signedChar), hash, str[i..]) == Fnv(str, start, signedChar)
    {
      assert str[i..][1..] == str[i + 1..];
      hash := Xor(hash, Widen(str[i], signedChar));
      hash := Mul(hash, FNV_PRIME);
    }
  }

  datatype Pointer = Null | To(bytes: seq<bv8>)

  /** `strlen`: the bytes before the first zero. */
  function Strlen(bytes: seq<bv8>): (n: nat)
    requires 0 in bytes
    ensures n < |bytes| && bytes[n] == 0 && forall i :: 0 <= i < n ==> bytes[i] != 0
  {
    if bytes[0] == 0 then 0 else 1 + Strlen(bytes[1..])
  }

  /** A length of zero stands for that of the C string. */
  method ProtonHash(data: Pointer, length: nat) returns (hash: bv32)
    requires data.To? ==> if length == 0 then 0 in data.bytes else length <= |data.bytes|
    ensures data.Null? ==> hash == Proton([])
    ensures data.To? ==> hash == Proton(data.bytes[..if length == 0 then Strlen(data.bytes) else length])
  {
    hash := 0x5555_5555;
    if data.Null? {
      return;
    }
    var left := length;
    if left <= 0 {
      left := Strlen(data.bytes);
    }
    ghost var all := data.bytes[..left];
    var next := 0;
    while left > 0
      invariant next + left == |all| && next <= |all|
      invariant Fold(ProtonNext, hash, all[next..]) == Proton(all)
    {
      assert all[next..][1..] == all[next + 1..];
      hash := Plus(Rotate(hash), ToWord(data.bytes[next]));
      next := next + 1;
      left := left - 1;
    }
  }
}
