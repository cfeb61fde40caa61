/** `packet::PacketHelper` and `packet::PacketDecoder`: a message type, then text, a game header with
    extra bytes, or a game header with variants. */
module Packets {
  import opened Bytes
  import opened ByteStreams
  import opened Wrappers
  import Sequences
  import TextParsing
  import Variants

  const GENERIC_TEXT: U32 := 2
  const GAME_MESSAGE: U32 := 3
  const GAME_PACKET: U32 := 4
  const SERVER_HELLO: U32 := 1
  const CALL_FUNCTION: Byte := 1

  // ----- the packed header -----

  const HEADER_SIZE: nat := 56
  const KIND: nat := 0
  const FLAGS: nat := 12
  const DATA_SIZE: nat := 52

  /** `GameUpdatePacket` is a packed structure that is copied whole: its fields are at fixed places. */
  type Header = h: seq<Byte> | |h| == 56 witness ZERO_HEADER

  const ZERO_HEADER: seq<Byte> := Zeros(56)

  function Zeros(n: nat): (s: seq<Byte>)
    ensures |s| == n && forall i :: 0 <= i < n ==> s[i] == 0
  {
    if n == 0 then [] else [0] + Zeros(n - 1)
  }

  function DataSize(h: Header): U32 {
    FromLe32(h[DATA_SIZE], h[DATA_SIZE + 1], h[DATA_SIZE + 2], h[DATA_SIZE + 3])
  }

  /** Bit 3 of the flags: extra data follows. */
  predicate Extended(h: Header) {
    h[FLAGS] / 8 % 2 == 1
  }

  /** The byte with bit 3 set. */
  function WithBit3(b: Byte): (r: Byte)
    ensures r / 8 % 2 == 1 && r - b == if b / 8 % 2 == 1 then 0 else 8
  {
    if b / 8 % 2 == 1 then b else b + 8
  }

  /** The header with the extended bit set and the size of what follows, cut to 32 bits. */
  function Extend(h: Header, size: nat): Header {
    h[FLAGS := WithBit3(h[FLAGS])][..DATA_SIZE] + Le32(ToU32(size))
  }

  lemma ExtendedDataSize(h: Header, size: nat)
    ensures DataSize(Extend(h, size)) == size % 0x1_0000_0000
  {
    var n := ToU32(size);
    var e := Extend(h, size);
    assert e[DATA_SIZE] == Le32(n)[0] && e[DATA_SIZE + 1] == Le32(n)[1] && e[DATA_SIZE + 2] == Le32(n)[2]
        && e[DATA_SIZE + 3] == Le32(n)[3];
    Recompose(n);
  }

  /** What `Extend` changes and what it leaves. */
  lemma ExtendIsExact(h: Header, size: nat)
    ensures Extended(Extend(h, size)) && DataSize(Extend(h, size)) == size % 0x1_0000_0000
    ensures Extend(h, size)[FLAGS] - h[FLAGS] == if Extended(h) then 0 else 8
    ensures forall i :: 0 <= i < DATA_SIZE && i != FLAGS ==> Extend(h, size)[i] == h[i]
  {
    ExtendedDataSize(h, size);
  }

  /** The sizes of the fields of the packed structure, in order: the type, padding, two ids, the flags, a
      float, an integer, 28 bytes of positions, the data size. */
  const FIELD_SIZES: seq<nat> := [1, 3, 4, 4, 4, 4, 4, 28, 4]

  function SizeOf(fields: seq<nat>): nat {
    if fields == [] then 0 else SizeOf(fields[..|fields| - 1]) + fields[|fields| - 1]
  }

  lemma SizeOfNext(fields: seq<nat>, k: nat)
    requires k < |fields|
    ensures SizeOf(fields[..k + 1]) == SizeOf(fields[..k]) + fields[k]
  {
    assert fields[..k + 1][..k] == fields[..k];
  }

  /** The places of the three fields that are looked at follow from the sizes of those before them. */
  lemma HeaderLayout()
    ensures KIND == SizeOf(FIELD_SIZES[..0]) && FLAGS == SizeOf(FIELD_SIZES[..4])
    ensures DATA_SIZE == SizeOf(FIELD_SIZES[..8]) && HEADER_SIZE == SizeOf(FIELD_SIZES)
  {
    for k := 0 to 4
      invariant SizeOf(FIELD_SIZES[..k]) == if k == 0 then 0 else 4 * (k - 1) + if k == 1 then 1 else 0
    {
      SizeOfNext(FIELD_SIZES, k);
    }
    SizeOfNext(FIELD_SIZES, 4);
    SizeOfNext(FIELD_SIZES, 5);
    SizeOfNext(FIELD_SIZES, 6);
    SizeOfNext(FIELD_SIZES, 7);
    SizeOfNext(FIELD_SIZES, 8);
    assert FIELD_SIZES[..9] == FIELD_SIZES;
  }

  // ----- payloads -----

  /** `raw` holds the bytes that a payload was decoded from; printing does not look at it. */
  datatype Payload =
    | Message(kind: U32, entries: seq<TextParsing.Entry>, raw: seq<Byte>)
    | Game(header: Header, extra: seq<Byte>, raw: seq<Byte>)
    | Call(header: Header, variants: seq<Variants.Variant>, raw: seq<Byte>)
    | Unparsed(data: seq<Byte>)

  function GameHeader(h: Header, extra: seq<Byte>): Header {
    if extra == [] then h else Extend(h, |extra|)
  }

  function CallHeader(h: Header, variants: seq<Variants.Variant>): Header {
    Extend(h[KIND := CALL_FUNCTION], |Variants.Encode(variants)|)
  }

  function Print(p: Payload): seq<Byte> {
    match p
    case Unparsed(data) => data
    case Message(kind, entries, _) => Le32(kind) + TextParsing.Raw(entries, BAR)
    case Game(h, extra, _) => Le32(GAME_PACKET) + GameHeader(h, extra) + extra
    case Call(h, vs, _) => Le32(GAME_PACKET) + CallHeader(h, vs) + Variants.Encode(vs)
  }

  /** What is sent: a zero byte goes after anything but nothing. */
  function Frame(p: Payload): seq<Byte> {
    if Print(p) == [] then [] else Print(p) + [0]
  }

  // ----- reading -----

  /** A header that is cut short is not consumed and reads as zeros. */
  function ReadHeader(s: seq<Byte>): (Header, seq<Byte>) {
    if |s| < HEADER_SIZE then (ZERO_HEADER, s) else (s[..HEADER_SIZE], s[HEADER_SIZE..])
  }

  /** The text is as long as the packet without its type and last byte, cut to 16 bits; a length of
      zero makes the string reader take the length from the stream. */
  function MessageText(data: seq<Byte>): Text
    requires |data| >= 4
  {
    ReadText16(data[4..], ToU16(|data| - 4 - 1)).value
  }

  function ParseGame(s: seq<Byte>, data: seq<Byte>): Option<Payload> {
    var (h, extra) := ReadHeader(s);
    if h[KIND] != CALL_FUNCTION then Some(Game(h, extra, data))
    else if Variants.Deserializes(extra) then Some(Call(h, Variants.Decode(extra), data))
    else None
  }

  /** The rest of a packet, once its type has been read. */
  function ParseAs(kind: U32, data: seq<Byte>): Option<Payload>
    requires |data| >= 4
  {
    if kind == SERVER_HELLO then Some(Message(SERVER_HELLO, [], data))
    else if kind == GENERIC_TEXT || kind == GAME_MESSAGE then
      Some(Message(kind, TextParsing.Parsed(MessageText(data), BAR), data))
    else if kind == GAME_PACKET then ParseGame(data[4..], data)
    else None
  }

  function Parse(data: seq<Byte>): Option<Payload> {
    var kind := ReadU32(data);
    if kind.ok then ParseAs(kind.value, data) else None
  }

  // ----- text -----

  lemma MessageOf(kind: seq<Byte>, text: Text)
    requires |kind| == 4
    ensures MessageText(kind + text + [0]) == ReadText16(text + [0], ToU16(|text|)).value
  {
    assert (kind + text + [0])[4..] == text + [0];
  }

  lemma LengthCut(text: Text)
    requires |text| > 0xFFFF
    ensures |ReadText16(text + [0], ToU16(|text|)).value| < |text|
  {
  }

  /** A text frame reads back as its text up to 65535 bytes, and as fewer bytes beyond. */
  lemma TextOfFrame(kind: U32, text: Text)
    ensures var t := MessageText(Le32(kind) + text + [0]);
            (if |text| <= 0xFFFF then t == text else |t| < |text|)
  {
    MessageOf(Le32(kind), text);
    if |text| > 0xFFFF {
      LengthCut(text);
    } else if text != [] {
      ReadBytesOf(text, [0]);
    } else {
      assert |text + [0]| == 1;
    }
  }

  /** A text payload survives framing exactly when its entries survive printing and the text is at
      most 65535 bytes. */
  lemma MessageRoundTrip(kind: U32, entries: seq<TextParsing.Entry>, raw: seq<Byte>)
    requires kind == GENERIC_TEXT || kind == GAME_MESSAGE
    ensures var frame := Frame(Message(kind, entries, raw));
            (Parse(frame) == Some(Message(kind, entries, frame))
        <==> TextParsing.Good(entries, BAR) && |TextParsing.Raw(entries, BAR)| <= 0xFFFF)
  {
    var text := TextParsing.Raw(entries, BAR);
    var frame := Le32(kind) + text + [0];
    assert frame == Le32(kind) + (text + [0]);
    ReadU32Of(kind, text + [0]);
    TextOfFrame(kind, text);
    if |text| <= 0xFFFF {
      TextParsing.RoundTrip(entries, BAR);
    } else {
      TextParsing.NormalisedIsNoLonger(MessageText(frame), BAR);
    }
  }

  // ----- game packets -----

  lemma ParseOfGame(h: Header, extra: seq<Byte>)
    ensures Parse(Le32(GAME_PACKET) + h + extra) == ParseGame(h + extra, Le32(GAME_PACKET) + h + extra)
    ensures ReadHeader(h + extra) == (h, extra)
  {
    Sequences.Regroup(Le32(GAME_PACKET), h, extra);
    ReadU32Of(GAME_PACKET, h + extra);
  }

  /** Whatever bytes follow, a game payload reads back as one, with its extra bytes and then those,
      exactly when its type is not that of a call. */
  lemma GameRoundTrip(h: Header, extra: seq<Byte>, raw: seq<Byte>, tail: seq<Byte>)
    ensures var data := Print(Game(h, extra, raw)) + tail;
            Parse(data) == Some(Game(GameHeader(h, extra), extra + tail, data)) <==> h[KIND] != CALL_FUNCTION
  {
    var sent := GameHeader(h, extra);
    Sequences.Regroup(Le32(GAME_PACKET) + sent, extra, tail);
    ParseOfGame(sent, extra + tail);
    ExtendIsExact(h, |extra|);
  }

  /** Whatever bytes follow, a call reads back as one unless its count is taken for zero. */
  lemma ParseOfCall(h: Header, vs: seq<Variants.Variant>, raw: seq<Byte>, tail: seq<Byte>)
    ensures var data := Print(Call(h, vs, raw)) + tail;
            var items := Variants.Encode(vs) + tail;
            Parse(data) ==
              if Variants.Deserializes(items) then Some(Call(CallHeader(h, vs), Variants.Decode(items), data))
              else None
    ensures CallHeader(h, vs)[KIND] == CALL_FUNCTION
  {
    var sent, items := CallHeader(h, vs), Variants.Encode(vs);
    Sequences.Regroup(Le32(GAME_PACKET) + sent, items, tail);
    ParseOfGame(sent, items + tail);
    ExtendIsExact(h[KIND := CALL_FUNCTION], |items|);
  }

  /** ... and with its variants exactly when there are 1 to 255 of them with strings shorter than
      2^32 bytes. */
  lemma CallRoundTrip(h: Header, vs: seq<Variants.Variant>, raw: seq<Byte>, tail: seq<Byte>)
    ensures var data := Print(Call(h, vs, raw)) + tail;
            (Parse(data) == Some(Call(CallHeader(h, vs), vs, data)) <==> 1 <= |vs| <= 255 && Variants.AllShort(vs))
  {
    ParseOfCall(h, vs, raw, tail);
    Variants.RoundTrip(vs, tail);
  }

  // ----- what is sent -----

  /** A header that announces `size` bytes: the extended bit and the size, and for the rest the given
      header. */
  ghost predicate Announces(sent: Header, h: Header, size: nat) {
    && sent[FLAGS] / 8 % 2 == 1
    && sent[FLAGS] % 8 == h[FLAGS] % 8 && sent[FLAGS] / 16 == h[FLAGS] / 16
    && (var a: int, b: int, c: int, d: int := sent[52], sent[53], sent[54], sent[55];
        a + 0x100 * b + 0x1_0000 * c + 0x100_0000 * d == size % 0x1_0000_0000)
    && forall i :: 1 <= i < DATA_SIZE && i != FLAGS ==> sent[i] == h[i]
  }

  lemma ExtendAnnounces(h: Header, size: nat)
    ensures Announces(Extend(h, size), h, size) && Extend(h, size)[KIND] == h[KIND]
  {
    ExtendIsExact(h, size);
    BitsAround(h[FLAGS]);
  }

  lemma BitsAround(b: Byte)
    ensures WithBit3(b) % 8 == b % 8 && WithBit3(b) / 16 == b / 16
  {
    var q, r := b / 8, b % 8;
    assert b == 8 * q + r && b / 16 == q / 2;
  }

  /** Whatever bytes follow, a call that reads back as one has a header of type 1 that announces the size
      of its variants, and is otherwise the one that was given. */
  lemma SentCall(h: Header, vs: seq<Variants.Variant>, raw: seq<Byte>, tail: seq<Byte>)
    ensures var p := Parse(Print(Call(h, vs, raw)) + tail);
      p.Some? ==> p.value.Call? && p.value.header[0] == 1 && Announces(p.value.header, h, |Variants.Encode(vs)|)
  {
    ParseOfCall(h, vs, raw, tail);
    ExtendAnnounces(h[KIND := CALL_FUNCTION], |Variants.Encode(vs)|);
  }

  /** Whatever bytes follow, a game payload reads back with a header of its type: the one that was given
      without extra bytes, and otherwise one that announces their number. */
  lemma SentGame(h: Header, extra: seq<Byte>, raw: seq<Byte>, tail: seq<Byte>)
    requires h[0] != 1
    ensures var p := Parse(Print(Game(h, extra, raw)) + tail);
      && p.Some? && p.value.Game? && p.value.header[0] == h[0]
      && (if extra == [] then p.value.header == h else Announces(p.value.header, h, |extra|))
      && p.value.extra == extra + tail
  {
    GameRoundTrip(h, extra, raw, tail);
    ExtendAnnounces(h, |extra|);
  }

  /** What a frame begins and ends with: its type as a little-endian word, and a zero byte. */
  lemma FrameIsExact(p: Payload)
    requires !p.Unparsed?
    ensures var f := Frame(p);
      && |f| == |Print(p)| + 1 >= 5 && f[|f| - 1] == 0
      && (p.Call? || p.Game? ==> f[..4] == [4, 0, 0, 0] && |f| >= 61)
      && (p.Message? ==> f[..4] == Le32(p.kind) && f[4..|f| - 1] == TextParsing.Raw(p.entries, BAR))
      && (p.Game? ==> f[60..|f| - 1] == p.extra)
      && (p.Call? ==> f[60..|f| - 1] == Variants.Encode(p.variants))
  {
    match p
    case Message(kind, entries, _) => SliceOf(Le32(kind), TextParsing.Raw(entries, BAR), [0]);
    case Game(h, extra, _) =>
      SliceOf(Le32(GAME_PACKET) + GameHeader(h, extra), extra, [0]);
      FirstFour(GameHeader(h, extra), extra + [0]);
    case Call(h, vs, _) =>
      SliceOf(Le32(GAME_PACKET) + CallHeader(h, vs), Variants.Encode(vs), [0]);
      FirstFour(CallHeader(h, vs), Variants.Encode(vs) + [0]);
  }

  lemma SliceOf(a: seq<Byte>, b: seq<Byte>, c: seq<Byte>)
    ensures (a + b + c)[|a|..|a| + |b|] == b && (a + b + c)[..|a|] == a && |a + b + c| == |a| + |b| + |c|
  {
  }

  lemma FirstFour(h: Header, rest: seq<Byte>)
    ensures (Le32(GAME_PACKET) + h + rest)[..4] == [4, 0, 0, 0]
  {
    assert Le32(GAME_PACKET) == [4, 0, 0, 0];
  }

  // ----- what is refused -----

  /** The decoder's exact conditions for refusing a packet: no type, a type it does not know, or a call
      whose variant count is missing or zero. */
  lemma RefusedIff(data: seq<Byte>)
    ensures Parse(data).None? <==>
      || |data| < 4
      || (data[0] == 0 || data[0] > 4 || data[1] != 0 || data[2] != 0 || data[3] != 0)
      || (data[0] == 4 && |data| >= 60 && data[4] == 1 && (|data| == 60 || data[60] == 0))
  {
    if |data| >= 4 {
      TypeIs(data[0], data[1], data[2], data[3], SERVER_HELLO);
      TypeIs(data[0], data[1], data[2], data[3], GENERIC_TEXT);
      TypeIs(data[0], data[1], data[2], data[3], GAME_MESSAGE);
      TypeIs(data[0], data[1], data[2], data[3], GAME_PACKET);
      RefusedGame(data);
    }
  }

  lemma TypeIs(a: Byte, b: Byte, c: Byte, d: Byte, kind: U32)
    requires kind < 256
    ensures FromLe32(a, b, c, d) == kind <==> a == kind && b == 0 && c == 0 && d == 0
  {
  }

  lemma RefusedGame(data: seq<Byte>)
    requires |data| >= 4
    ensures ParseGame(data[4..], data).None? <==>
      |data| >= 60 && data[4] == 1 && (|data| == 60 || data[60] == 0)
  {
    if |data| >= 60 {
      RefusedCall(data[4..], data);
    } else {
      ShortIsKept(data[4..], data);
    }
  }

  lemma ShortIsKept(s: seq<Byte>, data: seq<Byte>)
    requires |s| < 56
    ensures ParseGame(s, data) == Some(Game(ZERO_HEADER, s, data))
  {
    assert ReadHeader(s) == (ZERO_HEADER, s);
  }

  lemma RefusedCall(s: seq<Byte>, data: seq<Byte>)
    requires |s| >= 56
    ensures ParseGame(s, data).None? <==> s[0] == 1 && (|s| == 56 || s[56] == 0)
  {
    var h, extra := s[..56], s[56..];
    assert ReadHeader(s) == (h, extra) && h[KIND] == s[0];
    assert Variants.Deserializes(extra) <==> extra != [] && extra[0] != 0;
  }

  /** A greeting is kept as it is, without entries. */
  lemma HelloIsKept(data: seq<Byte>)
    requires |data| >= 4 && data[0] == 1 && data[1] == 0 && data[2] == 0 && data[3] == 0
    ensures Parse(data) == Some(Message(1, [], data))
  {
    TypeIs(data[0], data[1], data[2], data[3], SERVER_HELLO);
  }

  /** The text of a packet that is not framed as this side frames: all but its last byte as long as that
      fits 16 bits, and nothing for a packet of at most five bytes. */
  lemma TextOfPacket(data: seq<Byte>)
    requires 4 <= |data| <= 0xFFFF + 5
    ensures MessageText(data) == if |data| <= 5 then [] else data[4..|data| - 1]
  {
    if |data| > 5 {
      assert data[4..][..|data| - 5] == data[4..|data| - 1];
    }
  }

  /** A game packet that is too short for a header is kept, under a header of zeros. */
  lemma ShortGame(data: seq<Byte>)
    requires 4 <= |data| < 60 && data[..4] == [4, 0, 0, 0]
    ensures Parse(data).Some? && Parse(data).value.Game? && Parse(data).value.extra == data[4..]
    ensures forall i :: 0 <= i < 56 ==> Parse(data).value.header[i] == 0
  {
    assert data[0] == data[..4][0] && data[1] == data[..4][1] && data[2] == data[..4][2] && data[3] == data[..4][3];
    TypeIs(data[0], data[1], data[2], data[3], GAME_PACKET);
    ShortIsKept(data[4..], data);
  }

  // ----- the procedures -----

  method Serialize(p: Payload) returns (data: seq<Byte>)
    ensures data == Print(p)
  {
    if p.Unparsed? {
      return p.data;
    }
    var stream := new ByteStream([]);
    match p {
      case Message(kind, entries, _) => WriteMessage(stream, kind, entries);
      case Game(h, extra, _) => WriteGame(stream, h, extra);
      case Call(h, vs, _) => WriteCall(stream, h, vs);
    }
    data := stream.dataVec;
  }

  method WriteMessage(stream: ByteStream, kind: U32, entries: seq<TextParsing.Entry>)
    modifies stream`dataVec
    ensures stream.dataVec == old(stream.dataVec) + Print(Message(kind, entries, []))
  {
    stream.WriteU32(kind);
    var parse := new TextParsing.TextParse();
    parse.data := entries;
    var raw := parse.GetRaw(BAR, []);
    stream.WriteText16(raw, false);
  }

  method WriteGame(stream: ByteStream, h: Header, extra: seq<Byte>)
    modifies stream`dataVec
    ensures stream.dataVec == old(stream.dataVec) + Print(Game(h, extra, []))
  {
    stream.WriteU32(GAME_PACKET);
    var header := h;
    if extra != [] {
      header := Extend(header, |extra|);
    }
    stream.WriteData(header);
    stream.WriteData(extra);
    Sequences.RegroupFour(old(stream.dataVec), Le32(GAME_PACKET), header, extra);
  }

  method WriteCall(stream: ByteStream, h: Header, vs: seq<Variants.Variant>)
    modifies stream`dataVec
    ensures stream.dataVec == old(stream.dataVec) + Print(Call(h, vs, []))
  {
    stream.WriteU32(GAME_PACKET);
    var variant := new Variants.PacketVariant(vs);
    var items := variant.Serialize();
    var header := Extend(h[KIND := CALL_FUNCTION], |items|);
    stream.WriteData(header);
    stream.WriteData(items);
    Sequences.RegroupFour(old(stream.dataVec), Le32(GAME_PACKET), header, items);
  }

  method Decode(data: seq<Byte>) returns (p: Option<Payload>)
    ensures p == Parse(data)
  {
    var stream, ok, kind := Open(data);
    if !ok {
      return None;
    }
    p := DecodeAs(stream, kind, data);
  }

  method Open(data: seq<Byte>) returns (stream: ByteStream, ok: bool, kind: U32)
    ensures fresh(stream) && stream.Valid() && stream.Reads(data)
    ensures Reading(ok, kind, stream.Rest()) == ReadU32(data)
  {
    stream := new ByteStream(data);
    ok, kind := stream.ReadWord32();
  }

  method DecodeAs(stream: ByteStream, kind: U32, data: seq<Byte>) returns (p: Option<Payload>)
    requires stream.Valid() && |data| >= 4 && stream.Rest() == data[4..] && stream.Reads(data)
    modifies stream`readOffset
    ensures p == ParseAs(kind, data)
  {
    if kind == SERVER_HELLO {
      return Some(Message(SERVER_HELLO, [], data));
    } else if kind == GENERIC_TEXT || kind == GAME_MESSAGE {
      var message := DecodeMessage(stream, kind, data);
      return Some(message);
    } else if kind == GAME_PACKET {
      p := DecodeGame(stream, data);
    } else {
      return None;
    }
  }

  method DecodeMessage(stream: ByteStream, kind: U32, data: seq<Byte>) returns (p: Payload)
    requires stream.Valid() && |data| >= 4 && stream.Rest() == data[4..]
    modifies stream`readOffset
    ensures p == Message(kind, TextParsing.Parsed(MessageText(data), BAR), data)
  {
    var ok, message := stream.ReadString16(ToU16(|data| - 4 - 1), []);
    var parse := new TextParsing.TextParse();
    parse.Parse(message, BAR);
    p := Message(kind, parse.data, data);
  }

  method DecodeGame(stream: ByteStream, data: seq<Byte>) returns (p: Option<Payload>)
    requires stream.Valid() && stream.Reads(data)
    modifies stream`readOffset
    ensures p == ParseGame(old(stream.Rest()), data)
  {
    var ok, header := stream.ReadData(HEADER_SIZE);
    if !ok {
      header := ZERO_HEADER;
    }
    var extra := data[stream.readOffset..];
    assert extra == stream.Rest();
    assert ReadHeader(old(stream.Rest())) == (header, extra);
    if header[KIND] == CALL_FUNCTION {
      var variant := new Variants.PacketVariant([]);
      var read := variant.Deserialize(extra);
      assert variant.variants == Variants.Decode(extra);
      if !read {
        return None;
      }
      return Some(Call(header, variant.variants, data));
    }
    return Some(Game(header, extra, data));
  }
}
