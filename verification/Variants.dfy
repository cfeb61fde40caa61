/** `packet::PacketVariant`: the typed argument list of a call packet and its wire form. */
module Variants {
  import opened Bytes
  import opened ByteStreams
  import opened Repetition
  import Sequences

  /** Floats are carried as their 32-bit patterns. */
  datatype Variant =
    | Float(bits: U32)
    | Str(text: Text)
    | Vec2(x: U32, y: U32)
    | Vec3(x: U32, y: U32, z: U32)
    | Unsigned(number: U32)
    | Signed(value: I32)

  function TypeCode(v: Variant): Byte {
    match v
    case Float(_) => 1
    case Str(_) => 2
    case Vec2(_, _) => 3
    case Vec3(_, _, _) => 4
    case Unsigned(_) => 5
    case Signed(_) => 9
  }

  // ----- the wire form -----

  function Body(v: Variant): seq<Byte> {
    match v
    case Float(b) => Le32(b)
    case Str(t) => Le32(ToU32(|t|)) + t
    case Vec2(x, y) => Le32(x) + Le32(y)
    case Vec3(x, y, z) => Le32(x) + Le32(y) + Le32(z)
    case Unsigned(n) => Le32(n)
    case Signed(n) => Le32(Pattern(n))
  }

  function EncodeOne(i: nat, v: Variant): seq<Byte> {
    [ToByte(i), TypeCode(v)] + Body(v)
  }

  /** The count is written as one byte, whatever the size. */
  function Encode(vs: seq<Variant>): seq<Byte> {
    WriteCounted(EncodeOne, vs)
  }

  // ----- where things are on the wire -----

  /** The type bytes, and the four-byte words that follow them; a string has its bytes after its length. */
  lemma BodyIsExact(v: Variant)
    ensures match v
            case Float(b) => TypeCode(v) == 1 && Body(v) == Le32(b)
            case Str(t) => TypeCode(v) == 2 && Body(v)[..4] == Le32(ToU32(|t|)) && Body(v)[4..] == t
            case Vec2(x, y) => TypeCode(v) == 3 && |Body(v)| == 8 && Body(v)[..4] == Le32(x) && Body(v)[4..] == Le32(y)
            case Vec3(x, y, z) =>
              TypeCode(v) == 4 && |Body(v)| == 12
              && Body(v)[..4] == Le32(x) && Body(v)[4..8] == Le32(y) && Body(v)[8..] == Le32(z)
            case Unsigned(n) => TypeCode(v) == 5 && Body(v) == Le32(n)
            case Signed(n) => TypeCode(v) == 9 && Body(v) == Le32(if n < 0 then n + 0x1_0000_0000 else n)
  {
  }

  /** What an item takes: its index, its type and its words. */
  function ItemSize(v: Variant): nat {
    match v
    case Str(t) => 6 + |t|
    case Vec2(_, _) => 10
    case Vec3(_, _, _) => 14
    case _ => 6
  }

  lemma ItemSizeIs(i: nat, v: Variant)
    ensures |EncodeOne(i, v)| == ItemSize(v) == 2 + |Body(v)|
  {
  }

  /** How far from the end the items from `k` on begin. */
  function ItemsSize(vs: seq<Variant>, k: nat): nat
    requires k <= |vs|
    decreases |vs| - k
  {
    if k == |vs| then 0 else ItemSize(vs[k]) + ItemsSize(vs, k + 1)
  }

  lemma {:induction false} WrittenSize(vs: seq<Variant>, k: nat)
    requires k <= |vs|
    ensures |WriteFrom(EncodeOne, vs, k)| == ItemsSize(vs, k)
    decreases |vs| - k
  {
    if k < |vs| {
      WrittenSize(vs, k + 1);
      ItemSizeIs(k, vs[k]);
    }
  }

  /** Where item `k` begins: after the count byte and the items before it. */
  function Offset(vs: seq<Variant>, k: nat): nat
    requires k <= |vs|
    decreases k
  {
    if k == 0 then 1 else Offset(vs, k - 1) + ItemSize(vs[k - 1])
  }

  lemma {:induction false} OffsetAndSize(vs: seq<Variant>, k: nat)
    requires k <= |vs|
    ensures Offset(vs, k) + ItemsSize(vs, k) == 1 + ItemsSize(vs, 0)
    decreases k
  {
    if k > 0 {
      OffsetAndSize(vs, k - 1);
      ItemTakes(vs, k - 1);
    }
  }

  lemma ItemTakes(vs: seq<Variant>, k: nat)
    requires k < |vs|
    ensures Offset(vs, k + 1) + ItemsSize(vs, k + 1) == Offset(vs, k) + ItemsSize(vs, k)
  {
  }

  /** The wire form, byte by byte: the count, and for each item its index and its type, cut to bytes, and
      its body. */
  lemma EncodeIsExact(vs: seq<Variant>, k: nat)
    requires k < |vs|
    ensures Offset(vs, k) + ItemSize(vs[k]) <= |Encode(vs)| && ItemSize(vs[k]) == 2 + |Body(vs[k])|
    ensures var s, at := Encode(vs), Offset(vs, k);
      && s[0] == |vs| % 256
      && s[at] == k % 256 && s[at + 1] == TypeCode(vs[k])
      && s[at + 2..at + ItemSize(vs[k])] == Body(vs[k])
  {
    ItemSizeIs(k, vs[k]);
    SuffixOfEncode(vs, k);
    ItemFirst(Encode(vs), Offset(vs, k), k, vs[k], WriteFrom(EncodeOne, vs, k + 1));
  }

  lemma SuffixOfEncode(vs: seq<Variant>, k: nat)
    requires k < |vs|
    ensures Offset(vs, k) <= |Encode(vs)|
    ensures Encode(vs)[Offset(vs, k)..] == EncodeOne(k, vs[k]) + WriteFrom(EncodeOne, vs, k + 1)
  {
    OffsetAndSize(vs, k);
    WrittenSize(vs, 0);
    WrittenSize(vs, k);
    CountedSuffix(EncodeOne, vs, k);
  }

  lemma ItemFirst(s: seq<Byte>, at: nat, k: nat, v: Variant, rest: seq<Byte>)
    requires at <= |s| && s[at..] == EncodeOne(k, v) + rest
    ensures at + 2 + |Body(v)| <= |s| && s[at] == k % 256 && s[at + 1] == TypeCode(v)
    ensures s[at + 2..at + 2 + |Body(v)|] == Body(v)
  {
    assert s[at..][0] == s[at] && s[at..][1] == s[at + 1];
    assert s[at..][2..2 + |Body(v)|] == s[at + 2..at + 2 + |Body(v)|];
  }

  // ----- reading it back -----

  /** What is appended for a type byte: nothing for an unknown type, and a default for whatever the
      stream is too short to give. */
  function DecodeBody(code: nat, s: seq<Byte>): (seq<Variant>, seq<Byte>) {
    if code == 1 then
      var r := ReadU32(s); ([Float(r.value)], r.rest)
    else if code == 2 then
      var r := ReadText32(s, 0); ([Str(r.value)], r.rest)
    else if code == 3 then
      var x := ReadU32(s); var y := ReadU32(x.rest); ([Vec2(x.value, y.value)], y.rest)
    else if code == 4 then
      var x := ReadU32(s); var y := ReadU32(x.rest); var z := ReadU32(y.rest);
      ([Vec3(x.value, y.value, z.value)], z.rest)
    else if code == 5 then
      var r := ReadU32(s); ([Unsigned(r.value)], r.rest)
    else if code == 9 then
      var r := ReadU32(s); ([Signed(FromPattern(r.value))], r.rest)
    else
      ([], s)
  }

  /** One turn of the loop: the index byte is read and not looked at. */
  function DecodeOne(s: seq<Byte>): (seq<Variant>, seq<Byte>) {
    var index := ReadByte(s);
    var code := ReadByte(index.rest);
    DecodeBody(code.value, code.rest)
  }

  /** The variants that `deserialize` appends; it fails exactly when the count is missing or zero. */
  function Decode(s: seq<Byte>): seq<Variant> {
    ReadCounted(DecodeOne, s)
  }

  predicate Deserializes(s: seq<Byte>) {
    ReadByte(s).value != 0
  }

  /** What a missing word leaves. */
  function Default(code: nat): seq<Variant> {
    if code == 1 then [Float(0)] else if code == 2 then [Str([])] else if code == 3 then [Vec2(0, 0)]
    else if code == 4 then [Vec3(0, 0, 0)] else if code == 5 then [Unsigned(0)] else if code == 9 then [Signed(0)]
    else []
  }

  /** An unknown type appends nothing and consumes nothing; where the bytes run out, a known one appends
      zeros, or an empty string, and consumes whole words only. */
  lemma DecodeOfCutShort(code: nat, s: seq<Byte>, x: U32, y: U32)
    requires |s| < 4
    ensures DecodeBody(code, s) == (Default(code), s)
    ensures Default(code) == [] ==> forall t :: DecodeBody(code, t) == ([], t)
    ensures DecodeBody(3, Le32(x) + s) == ([Vec2(x, 0)], s)
    ensures DecodeBody(4, Le32(x) + s) == ([Vec3(x, 0, 0)], s)
    ensures DecodeBody(4, Le32(x) + (Le32(y) + s)) == ([Vec3(x, y, 0)], s)
    ensures x > |s| ==> DecodeBody(2, Le32(x) + s) == ([Str([])], s)
  {
    ReadU32Of(x, s);
    ReadU32Of(x, Le32(y) + s);
    ReadU32Of(y, s);
  }

  // ----- the round trip -----

  /** A string's length prefix holds its length. */
  predicate Short(v: Variant) {
    v.Str? ==> |v.text| < 0x1_0000_0000
  }

  lemma DecodeHeadOfOne(i: nat, v: Variant, rest: seq<Byte>)
    ensures DecodeOne(EncodeOne(i, v) + rest) == DecodeBody(TypeCode(v), Body(v) + rest)
  {
    var tail := Body(v) + rest;
    Sequences.Leading(ToByte(i), TypeCode(v), Body(v), rest);
    ReadByteOf(ToByte(i), [TypeCode(v)] + tail);
    ReadByteOf(TypeCode(v), tail);
  }

  lemma ReadPrefixed(n: U32, s: seq<Byte>)
    ensures ReadText32(Le32(n) + s, 0) == ReadBytes(s, n)
  {
    ReadU32Of(n, s);
  }

  lemma DecodeOfPair(x: U32, y: U32, rest: seq<Byte>)
    ensures DecodeBody(3, Le32(x) + Le32(y) + rest) == ([Vec2(x, y)], rest)
  {
    Sequences.Regroup(Le32(x), Le32(y), rest);
    ReadU32Of(x, Le32(y) + rest);
    ReadU32Of(y, rest);
  }

  lemma DecodeOfTriple(x: U32, y: U32, z: U32, rest: seq<Byte>)
    ensures DecodeBody(4, Le32(x) + Le32(y) + Le32(z) + rest) == ([Vec3(x, y, z)], rest)
  {
    Sequences.RegroupFour(Le32(x), Le32(y), Le32(z), rest);
    ReadU32Of(x, Le32(y) + (Le32(z) + rest));
    ReadU32Of(y, Le32(z) + rest);
    ReadU32Of(z, rest);
  }

  lemma DecodeOfString(t: Text, rest: seq<Byte>)
    requires |t| < 0x1_0000_0000
    ensures DecodeBody(2, Le32(|t|) + t + rest) == ([Str(t)], rest)
  {
    Sequences.Regroup(Le32(|t|), t, rest);
    ReadPrefixed(|t|, t + rest);
    ReadBytesOf(t, rest);
  }

  lemma DecodeOfWord(n: U32, rest: seq<Byte>)
    ensures DecodeBody(1, Le32(n) + rest) == ([Float(n)], rest)
    ensures DecodeBody(5, Le32(n) + rest) == ([Unsigned(n)], rest)
  {
    ReadU32Of(n, rest);
  }

  lemma DecodeOfSigned(n: I32, rest: seq<Byte>)
    ensures DecodeBody(9, Le32(Pattern(n)) + rest) == ([Signed(n)], rest)
  {
    ReadU32Of(Pattern(n), rest);
    PatternRoundTrip(n);
  }

  lemma DecodeOfBody(v: Variant, rest: seq<Byte>)
    requires Short(v)
    ensures DecodeBody(TypeCode(v), Body(v) + rest) == ([v], rest)
  {
    match v
    case Float(b) =>
      assert TypeCode(v) == 1 && Body(v) == Le32(b);
      DecodeOfWord(b, rest);
    case Str(t) =>
      assert TypeCode(v) == 2 && Body(v) == Le32(|t|) + t;
      DecodeOfString(t, rest);
    case Vec2(x, y) =>
      assert TypeCode(v) == 3 && Body(v) == Le32(x) + Le32(y);
      DecodeOfPair(x, y, rest);
    case Vec3(x, y, z) =>
      assert TypeCode(v) == 4 && Body(v) == Le32(x) + Le32(y) + Le32(z);
      DecodeOfTriple(x, y, z, rest);
    case Unsigned(n) =>
      assert TypeCode(v) == 5 && Body(v) == Le32(n);
      DecodeOfWord(n, rest);
    case Signed(n) =>
      assert TypeCode(v) == 9 && Body(v) == Le32(Pattern(n));
      DecodeOfSigned(n, rest);
  }

  lemma DecodeOfOne(i: nat, v: Variant, rest: seq<Byte>)
    requires Short(v)
    ensures DecodeOne(EncodeOne(i, v) + rest) == ([v], rest)
  {
    DecodeHeadOfOne(i, v, rest);
    DecodeOfBody(v, rest);
  }

  /** A string that is too long is read as one shorter by at least 2^32 bytes. */
  predicate Cut(v: Variant, back: Variant) {
    v.Str? && back.Str? && |back.text| + 0x1_0000_0000 <= |v.text|
  }

  lemma CutLength(t: Text, rest: seq<Byte>)
    requires |t| >= 0x1_0000_0000
    ensures |ReadBytes(t + rest, ToU32(|t|)).value| + 0x1_0000_0000 <= |t|
  {
  }

  lemma DecodeOfLong(i: nat, v: Variant, rest: seq<Byte>)
    requires !Short(v)
    ensures |DecodeOne(EncodeOne(i, v) + rest).0| == 1 && Cut(v, DecodeOne(EncodeOne(i, v) + rest).0[0])
  {
    DecodeHeadOfOne(i, v, rest);
    var n := ToU32(|v.text|);
    Sequences.Regroup(Le32(n), v.text, rest);
    ReadPrefixed(n, v.text + rest);
    CutLength(v.text, rest);
  }

  /** A variant survives the wire exactly when its string, if it is one, is short. */
  lemma RecoversShort(v: Variant)
    ensures Short(v) ==> Recovers(EncodeOne, DecodeOne, v)
    ensures !Short(v) ==> Misreads(EncodeOne, DecodeOne, v) && !Recovers(EncodeOne, DecodeOne, v)
  {
    if Short(v) {
      forall i: nat, rest ensures DecodeOne(EncodeOne(i, v) + rest) == ([v], rest) {
        DecodeOfOne(i, v, rest);
      }
    } else {
      ChangesLong(v);
      ChangeIsMisread(EncodeOne, DecodeOne, v, Cut);
      MisreadIsNotRecovered(EncodeOne, DecodeOne, v);
    }
  }

  lemma ChangesLong(v: Variant)
    requires !Short(v)
    ensures Changes(EncodeOne, DecodeOne, v, Cut)
  {
    forall i: nat, rest
      ensures |DecodeOne(EncodeOne(i, v) + rest).0| == 1 && Cut(v, DecodeOne(EncodeOne(i, v) + rest).0[0])
    {
      DecodeOfLong(i, v, rest);
    }
  }

  lemma DecodedOneIsShort(s: seq<Byte>)
    ensures |DecodeOne(s).0| <= 1 && forall v :: v in DecodeOne(s).0 ==> Short(v)
  {
  }

  lemma DecodedAreShort(n: nat, s: seq<Byte>)
    ensures |ReadMany(DecodeOne, n, s)| <= n
    ensures AllShort(ReadMany(DecodeOne, n, s))
  {
    forall t: seq<Byte> {
      DecodedOneIsShort(t);
    }
    ReadManyBounds(DecodeOne, Short, n, s);
  }

  predicate AllShort(vs: seq<Variant>) {
    forall v :: v in vs ==> Short(v)
  }

  /** The wire round trip and its exact condition: whatever bytes follow, `deserialize` succeeds on
      `serialize` and yields the same list exactly for 1 to 255 variants whose strings are shorter
      than 2^32 bytes. */
  lemma RoundTrip(vs: seq<Variant>, rest: seq<Byte>)
    ensures Deserializes(Encode(vs) + rest) && Decode(Encode(vs) + rest) == vs
       <==> 1 <= |vs| <= 255 && AllShort(vs)
  {
    forall v: Variant {
      RecoversShort(v);
    }
    forall t: seq<Byte> {
      DecodedOneIsShort(t);
    }
    CountedRoundTrip(EncodeOne, DecodeOne, Short, vs, rest);
  }

  /** The first string that is too long comes back cut. */
  lemma LongTextIsCut(vs: seq<Variant>, k: nat, rest: seq<Byte>)
    requires k < |vs| <= 255 && !Short(vs[k]) && forall j :: 0 <= j < k ==> Short(vs[j])
    ensures k < |Decode(Encode(vs) + rest)| && Cut(vs[k], Decode(Encode(vs) + rest)[k])
  {
    forall j | 0 <= j < k ensures Recovers(EncodeOne, DecodeOne, vs[j]) {
      RecoversShort(vs[j]);
    }
    ChangesLong(vs[k]);
    FirstChanged(EncodeOne, DecodeOne, Cut, vs, k, rest);
  }

  /** For any bytes at all that yield a variant, one more trip over the wire changes nothing. */
  lemma Normalised(s: seq<Byte>)
    requires Decode(s) != []
    ensures Deserializes(Encode(Decode(s))) && Decode(Encode(Decode(s))) == Decode(s)
  {
    var size := ReadByte(s);
    DecodedAreShort(size.value, size.rest);
    RoundTrip(Decode(s), []);
    assert Encode(Decode(s)) + [] == Encode(Decode(s));
  }

  // ----- lookups -----

  function GetSigned(vs: seq<Variant>, i: nat): I32 {
    if i < |vs| && vs[i].Signed? then vs[i].value else 0
  }

  function GetUnsigned(vs: seq<Variant>, i: nat): U32 {
    if i < |vs| && vs[i].Unsigned? then vs[i].number else 0
  }

  function GetText(vs: seq<Variant>, i: nat): Text {
    if i < |vs| && vs[i].Str? then vs[i].text else []
  }

  class PacketVariant {
    var variants: seq<Variant>

    constructor (variants: seq<Variant>)
      ensures this.variants == variants
    {
      this.variants := variants;
    }

    method Add(value: Variant)
      modifies this
      ensures variants == old(variants) + [value]
    {
      variants := variants + [value];
    }

    method Serialize() returns (data: seq<Byte>)
      ensures data == Encode(variants)
    {
      var stream := new ByteStream([]);
      stream.WriteByte(ToByte(|variants|));
      var i := 0;
      while i < |variants|
        invariant i <= |variants|
        invariant stream.dataVec + WriteFrom(EncodeOne, variants, i) == Encode(variants)
      {
        WriteStep(EncodeOne, stream.dataVec, variants, i);
        WriteOne(stream, i, variants[i]);
        i := i + 1;
      }
      data := stream.dataVec;
    }

    /** Appends to the list, which need not be empty; on failure it appends nothing. */
    method Deserialize(data: seq<Byte>) returns (ok: bool)
      modifies this
      ensures ok == Deserializes(data)
      ensures variants == old(variants) + Decode(data)
    {
      ok := DeserializeWith(data, DecodeOne);
    }

    /** `read` stands for `DecodeOne`, whose definition this does not need. A count of zero, which is
        the failure, makes no turn of the loop. */
    method DeserializeWith(data: seq<Byte>, ghost read: Reader<Variant>) returns (ok: bool)
      requires IsDecodeOne(read)
      modifies this
      ensures ok == (ReadByte(data).value != 0)
      ensures variants == old(variants) + ReadCounted(read, data)
    {
      var stream := new ByteStream(data);
      var found, size := stream.ReadOneByte();
      ok := size != 0;
      AppendFrom(stream, size, read);
    }

    method AppendFrom(stream: ByteStream, count: nat, ghost read: Reader<Variant>)
      requires stream.Valid() && IsDecodeOne(read)
      modifies this`variants, stream`readOffset
      ensures stream.Valid() && variants == old(variants) + ReadMany(read, count, old(stream.Rest()))
    {
      ghost var all := variants + ReadMany(read, count, stream.Rest());
      var i := 0;
      while i < count
        invariant i <= count && stream.Valid() && variants + ReadMany(read, count - i, stream.Rest()) == all
      {
        AppendOne(stream, count - i, read);
        i := i + 1;
      }
    }

    method AppendOne(stream: ByteStream, ghost left: nat, ghost read: Reader<Variant>)
      requires stream.Valid() && left > 0 && IsDecodeOne(read)
      modifies this`variants, stream`readOffset
      ensures stream.Valid()
      ensures variants + ReadMany(read, left - 1, stream.Rest()) == old(variants + ReadMany(read, left, stream.Rest()))
    {
      ReadStep(read, variants, left, stream.Rest());
      assert read(stream.Rest()) == DecodeOne(stream.Rest());
      var values := ReadOne(stream);
      variants := variants + values;
    }
  }

  ghost predicate IsDecodeOne(read: Reader<Variant>) {
    forall s {:trigger DecodeOne(s)} :: read(s) == DecodeOne(s)
  }

  method WriteOne(stream: ByteStream, i: nat, v: Variant)
    modifies stream`dataVec
    ensures stream.dataVec == old(stream.dataVec) + EncodeOne(i, v)
  {
    stream.WriteByte(ToByte(i));
    stream.WriteByte(TypeCode(v));
    WriteBody(stream, v);
  }

  method ReadOne(stream: ByteStream) returns (values: seq<Variant>)
    requires stream.Valid()
    modifies stream`readOffset
    ensures stream.Valid() && (values, stream.Rest()) == DecodeOne(old(stream.Rest()))
  {
    var ok, index := stream.ReadOneByte();
    var code;
    ok, code := stream.ReadOneByte();
    values := ReadBody(stream, code);
  }

  method WriteBody(stream: ByteStream, v: Variant)
    modifies stream`dataVec
    ensures stream.dataVec == old(stream.dataVec) + Body(v)
  {
    match v
    case Float(b) => stream.WriteU32(b);
    case Str(t) => stream.WriteText32(t);
    case Vec2(x, y) =>
      stream.WriteU32(x);
      stream.WriteU32(y);
    case Vec3(x, y, z) =>
      stream.WriteU32(x);
      stream.WriteU32(y);
      stream.WriteU32(z);
    case Unsigned(n) => stream.WriteU32(n);
    case Signed(n) => stream.WriteU32(Pattern(n));
  }

  /** The values appended for one type byte: one, or none when the type is unknown. */
  method ReadBody(stream: ByteStream, code: nat) returns (values: seq<Variant>)
    requires stream.Valid()
    modifies stream`readOffset
    ensures stream.Valid() && (values, stream.Rest()) == DecodeBody(code, old(stream.Rest()))
  {
    var ok;
    values := [];
    if code == 1 {
      var bits;
      ok, bits := stream.ReadWord32();
      values := [Float(bits)];
    } else if code == 2 {
      var text;
      ok, text := stream.ReadString32(0, []);
      values := [Str(text)];
    } else if code == 3 {
      var x, y;
      ok, x := stream.ReadWord32();
      ok, y := stream.ReadWord32();
      values := [Vec2(x, y)];
    } else if code == 4 {
      var x, y, z;
      ok, x := stream.ReadWord32();
      ok, y := stream.ReadWord32();
      ok, z := stream.ReadWord32();
      values := [Vec3(x, y, z)];
    } else if code == 5 {
      var number;
      ok, number := stream.ReadWord32();
      values := [Unsigned(number)];
    } else if code == 9 {
      var pattern;
      ok, pattern := stream.ReadWord32();
      values := [Signed(FromPattern(pattern))];
    }
  }
}
