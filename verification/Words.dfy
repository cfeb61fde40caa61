/** 32-bit words as the seed sequence uses them: `std::uint32_t` is `bv32`, whose arithmetic
    wraps modulo 2^32 as that of `seed_seq_fe` does. */
module Words {

  const WORD_COUNT: nat := 0x1_0000_0000

  /** The values an `IntRep` exponent can take; `power & 1` is `% 2` and `power >>= 1` is `/ 2`. */
  type Exponent = k: nat | k < WORD_COUNT

  const MAX_EXPONENT: Exponent := 0xFFFF_FFFF

  predicate Odd(x: bv32) {
    x & 1 == 1
  }

  // The word operations have names so that proofs can treat their results as terms.

  function Mul(a: bv32, b: bv32): bv32 {
    a * b
  }

  function Plus(a: bv32, b: bv32): bv32 {
    a + b
  }

  function Minus(a: bv32, b: bv32): bv32 {
    a - b
  }

  function Xor(a: bv32, b: bv32): bv32 {
    a ^ b
  }

  function XorShift(x: bv32): bv32 {
    x ^ (x >> 16)
  }

  /** The reference meaning of exponentiation: multiply `k` times. */
  function Pow(x: bv32, k: nat): bv32 {
    if k == 0 then 1 else Mul(x, Pow(x, k - 1))
  }

  // ----- identities of the ring of words -----

  lemma ProductsAssociate(a: bv32, b: bv32, c: bv32)
    ensures Mul(a * b, c) == Mul(a, b * c)
  {
  }

  lemma MulAssoc(a: bv32, b: bv32, c: bv32)
    ensures Mul(Mul(a, b), c) == Mul(a, Mul(b, c))
  {
    ProductsAssociate(a, b, c);
  }

  lemma MulComm(a: bv32, b: bv32)
    ensures Mul(a, b) == Mul(b, a)
  {
  }

  lemma OneTimes(x: bv32)
    ensures Mul(1, x) == x && Mul(x, 1) == x
  {
  }

  lemma OddTimesOdd(a: bv32, b: bv32)
    requires Odd(a) && Odd(b)
    ensures Odd(Mul(a, b))
  {
  }

  /** Multiplying by `x` and then by an inverse of `x` gives the word back. */
  lemma MulCancel(a: bv32, x: bv32, inverse: bv32)
    requires Mul(x, inverse) == 1
    ensures Mul(Mul(a, x), inverse) == a
  {
    MulAssoc(a, x, inverse);
    OneTimes(a);
  }

  lemma InverseIsUnique(x: bv32, i: bv32, j: bv32)
    requires Mul(x, i) == 1 && Mul(x, j) == 1
    ensures i == j
  {
    MulCancel(i, x, j);
    MulComm(i, x);
    OneTimes(j);
  }

  lemma XorTwice(v: bv32, c: bv32)
    ensures Xor(v ^ c, c) == v
  {
  }

  lemma XorCancel(v: bv32, c: bv32)
    ensures Xor(Xor(v, c), c) == v
  {
    XorTwice(v, c);
  }

  lemma SumMinus(a: bv32, b: bv32)
    ensures Minus(a + b, b) == a
  {
  }

  lemma DifferencePlus(a: bv32, b: bv32)
    ensures Plus(a - b, b) == a
  {
  }

  lemma MinusDifference(a: bv32, b: bv32)
    ensures Minus(a, a - b) == b
  {
  }

  lemma PlusCancel(a: bv32, b: bv32)
    ensures Minus(Plus(a, b), b) == a
    ensures Plus(Minus(a, b), b) == a
    ensures Minus(a, Minus(a, b)) == b
  {
    SumMinus(a, b);
    DifferencePlus(a, b);
    MinusDifference(a, b);
  }

  /** The xor-shift by half the width undoes itself. */
  lemma XorShiftInvolution(x: bv32)
    ensures XorShift(XorShift(x)) == x
  {
    XorShiftTwice(x);
  }

  lemma XorShiftTwice(x: bv32)
    ensures XorShift(x ^ (x >> 16)) == x
  {
  }

  // ----- exponentiation -----

  lemma {:induction false} PowAdd(x: bv32, m: nat, n: nat)
    ensures Pow(x, m + n) == Mul(Pow(x, m), Pow(x, n))
  {
    if m == 0 {
      OneTimes(Pow(x, n));
    } else {
      PowAdd(x, m - 1, n);
      MulAssoc(x, Pow(x, m - 1), Pow(x, n));
    }
  }

  lemma {:induction false} PowOfSquare(x: bv32, k: nat)
    ensures Pow(Mul(x, x), k) == Pow(x, 2 * k)
  {
    if k == 0 {
    } else {
      PowOfSquare(x, k - 1);
      assert Pow(x, 2 * k) == Mul(x, Pow(x, 2 * k - 1));
      assert Pow(x, 2 * k - 1) == Mul(x, Pow(x, 2 * (k - 1)));
      MulAssoc(x, x, Pow(x, 2 * (k - 1)));
    }
  }

  lemma {:induction false} PowIsOdd(x: bv32, k: nat)
    requires Odd(x)
    ensures Odd(Pow(x, k))
  {
    if k == 0 {
    } else {
      PowIsOdd(x, k - 1);
      OddTimesOdd(x, Pow(x, k - 1));
    }
  }

  function TwoTo(k: nat): nat {
    if k == 0 then 1 else 2 * TwoTo(k - 1)
  }

  function WordTwoTo(k: nat): bv32 {
    if k == 0 then 1 else 2 * WordTwoTo(k - 1)
  }

  lemma TwoToValues()
    ensures TwoTo(32) == WORD_COUNT && WordTwoTo(32) == 0
  {
    assert TwoTo(8) == 0x100;
    assert TwoTo(16) == 0x1_0000;
    assert TwoTo(24) == 0x100_0000;
    assert WordTwoTo(8) == 0x100;
    assert WordTwoTo(16) == 0x1_0000;
    assert WordTwoTo(24) == 0x100_0000;
  }

  function OnePlus(d: bv32, y: bv32): bv32 {
    1 + 2 * d * y
  }

  /** `x` is congruent to 1 modulo `2d`. */
  ghost predicate OneModulo(x: bv32, d: bv32) {
    exists y :: x == OnePlus(d, y)
  }

  lemma SquareExpanded(d: bv32, y: bv32)
    ensures Mul(1 + 2 * d * y, 1 + 2 * d * y) == OnePlus(2 * d, y + d * y * y)
  {
  }

  lemma SquareOneModulo(x: bv32, d: bv32)
    requires OneModulo(x, d)
    ensures OneModulo(Mul(x, x), 2 * d)
  {
    var y :| x == OnePlus(d, y);
    SquareExpanded(d, y);
  }

  lemma OddOneModulo(x: bv32)
    requires Odd(x)
    ensures OneModulo(x, 1)
  {
    assert x == OnePlus(1, x >> 1);
  }

  lemma OneModuloWrapped(x: bv32)
    requires OneModulo(x, 0)
    ensures x == 1
  {
    var y :| x == OnePlus(0, y);
    assert OnePlus(0, y) == 1;
  }

  /** Squaring an odd word `k` times leaves it congruent to 1 modulo 2^(k+1). */
  lemma {:induction false} OddSquaredRepeatedly(x: bv32, k: nat)
    requires Odd(x)
    ensures OneModulo(Pow(x, TwoTo(k)), WordTwoTo(k))
  {
    if k == 0 {
      OddOneModulo(x);
      OneTimes(x);
      assert Pow(x, 1) == Mul(x, Pow(x, 0));
    } else {
      OddSquaredRepeatedly(x, k - 1);
      PowAdd(x, TwoTo(k - 1), TwoTo(k - 1));
      SquareOneModulo(Pow(x, TwoTo(k - 1)), WordTwoTo(k - 1));
    }
  }

  /** The order of every odd word divides 2^32. */
  lemma OddOrder(x: bv32)
    requires Odd(x)
    ensures Pow(x, WORD_COUNT) == 1
  {
    OddSquaredRepeatedly(x, 32);
    TwoToValues();
    OneModuloWrapped(Pow(x, WORD_COUNT));
  }

  /** `fast_exp(x, IntRep(-1))` is the multiplicative inverse of every odd `x`. */
  lemma OddInverse(x: bv32)
    requires Odd(x)
    ensures Mul(x, Pow(x, MAX_EXPONENT)) == 1
  {
    OddOrder(x);
  }

  lemma PowPeriod(x: bv32, n: nat, k: nat)
    requires Pow(x, n) == 1
    ensures Pow(x, n + k) == Pow(x, k)
  {
    PowAdd(x, n, k);
    OneTimes(Pow(x, k));
  }

  lemma {:induction false} PowPeriodic(x: bv32, n: nat, q: nat, k: nat)
    requires Pow(x, n) == 1
    ensures Pow(x, Times(q, n) + k) == Pow(x, k)
  {
    if q == 0 {
    } else {
      PowPeriodic(x, n, q - 1, k);
      PowPeriod(x, n, Times(q - 1, n) + k);
    }
  }

  /** `q * n` by repeated addition, which keeps the proof above linear. */
  function Times(q: nat, n: nat): nat {
    if q == 0 then 0 else n + Times(q - 1, n)
  }

  lemma {:induction false} TimesIsProduct(q: nat, n: nat)
    ensures Times(q, n) == q * n
  {
    if q == 0 {
    } else {
      TimesIsProduct(q - 1, n);
    }
  }

  /** An exponent that does not fit a word may be truncated, because the base is odd. */
  lemma PowTruncated(x: bv32, k: nat)
    requires Odd(x)
    ensures Pow(x, k) == Pow(x, k % WORD_COUNT)
  {
    OddOrder(x);
    PowPeriodic(x, WORD_COUNT, k / WORD_COUNT, k % WORD_COUNT);
    TimesIsProduct(k / WORD_COUNT, WORD_COUNT);
  }

  /** One round of repeated squaring keeps `result * multiplier^power`. */
  lemma SquaringStep(result: bv32, multiplier: bv32, power: nat)
    requires power != 0
    ensures Mul(Mul(result, if power % 2 == 1 then multiplier else 1), Pow(Mul(multiplier, multiplier), power / 2))
         == Mul(result, Pow(multiplier, power))
  {
    PowOfSquare(multiplier, power / 2);
    if power % 2 == 1 {
      assert Pow(multiplier, power) == Mul(multiplier, Pow(multiplier, 2 * (power / 2)));
      MulAssoc(result, multiplier, Pow(multiplier, 2 * (power / 2)));
    } else {
      assert power == 2 * (power / 2);
      OneTimes(result);
    }
  }

  /** Exponentiation by repeated squaring, for every base and exponent. */
  method FastExp(x: bv32, exponent: Exponent) returns (result: bv32)
    ensures result == Pow(x, exponent)
  {
    var power: nat := exponent;
    result := 1;
    var multiplier := x;
    OneTimes(Pow(x, exponent));
    while power != 0
      invariant Mul(result, Pow(multiplier, power)) == Pow(x, exponent)
    {
      SquaringStep(result, multiplier, power);
      var thisMult := if power % 2 == 1 then multiplier else 1;
      result := Mul(result, thisMult);
      power := power / 2;
      multiplier := Mul(multiplier, multiplier);
    }
    OneTimes(result);
  }
}
