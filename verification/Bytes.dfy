/** Bytes, little-endian integers, and reading them off the front of a byte sequence. */
module Bytes {

  type Byte = x: int | 0 <= x < 256
  type U16 = x: int | 0 <= x < 0x1_0000
  type U32 = x: int | 0 <= x < 0x1_0000_0000
  type I32 = x: int | -0x8000_0000 <= x < 0x8000_0000

  /** A `std::string`: bytes without an encoding. */
  type Text = seq<Byte>

  const BAR: Byte := '|' as int
  const NEWLINE: Byte := '\n' as int

  /** Converting any size to an unsigned type keeps its low bits. */
  function ToByte(n: int): Byte {
    n % 256
  }

  function ToU16(n: int): U16 {
    n % 0x1_0000
  }

  function ToU32(n: int): U32 {
    n % 0x1_0000_0000
  }

  // ----- integers as bytes, least significant first -----

  function Le16(n: U16): (s: seq<Byte>)
    ensures |s| == 2
  {
    [n % 256, n / 256]
  }

  function Le32(n: U32): (s: seq<Byte>)
    ensures |s| == 4
  {
    [n % 256, n / 256 % 256, n / 0x1_0000 % 256, n / 0x100_0000]
  }

  function FromLe16(a: Byte, b: Byte): U16 {
    a + 256 * b
  }

  function FromLe32(a: Byte, b: Byte, c: Byte, d: Byte): U32 {
    a + 256 * b + 0x1_0000 * c + 0x100_0000 * d
  }

  /** The bytes are the digits to base 256, the least significant one first. */
  lemma LittleEndian(n: U32, m: U16)
    ensures var a: int, b: int, c: int, d: int := Le32(n)[0], Le32(n)[1], Le32(n)[2], Le32(n)[3];
            n == a + 0x100 * b + 0x1_0000 * c + 0x100_0000 * d
    ensures var a: int, b: int := Le16(m)[0], Le16(m)[1];
            m == a + 0x100 * b
  {
    Recompose(n);
  }

  lemma Recompose(n: U32)
    ensures FromLe32(n % 256, n / 256 % 256, n / 0x1_0000 % 256, n / 0x100_0000) == n
  {
    var q := n / 256;
    var r := q / 256;
    assert n / 0x1_0000 == r;
    assert n / 0x100_0000 == r / 256;
    assert q == q % 256 + 256 * r;
  }

  /** The bit pattern of a signed word, and back. */
  function Pattern(i: I32): U32 {
    if i < 0 then i + 0x1_0000_0000 else i
  }

  function FromPattern(u: U32): I32 {
    if u >= 0x8000_0000 then u - 0x1_0000_0000 else u
  }

  lemma PatternRoundTrip(i: I32)
    ensures FromPattern(Pattern(i)) == i
  {
  }

  // ----- reading -----

  /** The outcome of a read: a failed one leaves the variable at zero or empty and consumes nothing. */
  datatype Reading<T> = Reading(ok: bool, value: T, rest: seq<Byte>)

  /** `read_data`: all the bytes or nothing. */
  function ReadBytes(s: seq<Byte>, n: nat): Reading<seq<Byte>> {
    if |s| < n then Reading(false, [], s) else Reading(true, s[..n], s[n..])
  }

  function ReadByte(s: seq<Byte>): Reading<Byte> {
    if |s| < 1 then Reading(false, 0, s) else Reading(true, s[0], s[1..])
  }

  function ReadU16(s: seq<Byte>): Reading<U16> {
    if |s| < 2 then Reading(false, 0, s) else Reading(true, FromLe16(s[0], s[1]), s[2..])
  }

  function ReadU32(s: seq<Byte>): Reading<U32> {
    if |s| < 4 then Reading(false, 0, s) else Reading(true, FromLe32(s[0], s[1], s[2], s[3]), s[4..])
  }

  /** Reads a string into an empty one. A given length of zero means that the length comes first in
      the stream, in two or four bytes; when too few bytes follow it, it has been consumed all the same. */
  function ReadText16(s: seq<Byte>, given: U16): (r: Reading<Text>)
    ensures !r.ok ==> r.value == []
  {
    if given != 0 then
      ReadBytes(s, given)
    else
      var length := ReadU16(s);
      if !length.ok then Reading(false, [], s) else ReadBytes(length.rest, length.value)
  }

  function ReadText32(s: seq<Byte>, given: U32): (r: Reading<Text>)
    ensures !r.ok ==> r.value == []
  {
    if given != 0 then
      ReadBytes(s, given)
    else
      var length := ReadU32(s);
      if !length.ok then Reading(false, [], s) else ReadBytes(length.rest, length.value)
  }

  /** The same into a string that holds `was`, which a failed read leaves alone. */
  function Into(r: Reading<Text>, was: Text): Reading<Text> {
    if r.ok then r else r.(value := was)
  }

  /** A length prefix that promises more than follows is consumed by the read that fails. */
  lemma ShortText(n: U32, m: U16, s: seq<Byte>)
    ensures ReadText32(Le32(n) + s, 0) == if n <= |s| then Reading(true, s[..n], s[n..]) else Reading(false, [], s)
    ensures ReadText16(Le16(m) + s, 0) == if m <= |s| then Reading(true, s[..m], s[m..]) else Reading(false, [], s)
  {
    ReadU32Of(n, s);
    assert (Le16(m) + s)[2..] == s;
  }

  lemma ReadByteOf(b: Byte, rest: seq<Byte>)
    ensures ReadByte([b] + rest) == Reading(true, b, rest)
  {
  }

  lemma ReadU32Of(n: U32, rest: seq<Byte>)
    ensures ReadU32(Le32(n) + rest) == Reading(true, n, rest)
  {
    assert (Le32(n) + rest)[4..] == rest;
    Recompose(n);
  }

  lemma ReadBytesOf(t: Text, rest: seq<Byte>)
    ensures ReadBytes(t + rest, |t|) == Reading(true, t, rest)
  {
    assert (t + rest)[..|t|] == t && (t + rest)[|t|..] == rest;
  }
}
