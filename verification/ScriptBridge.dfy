/** `ScriptEventBridge::parse_packet`: the second reader of packets, which hands them to scripts and goes
    by the header's flags and data size. */
module ScriptBridge {
  import opened Bytes
  import opened ByteStreams
  import opened Packets
  import Repetition
  import Sequences
  import TextParsing
  import Variants

  const NETWORK_ERROR: U32 := 5

  /** What a script is given. */
  datatype View =
    | Nothing
    | Lines(entries: seq<TextParsing.Entry>)
    | Values(variants: seq<Variants.Variant>)
    | Update(header: Header)

  /** One zero byte at the end is not part of the text. */
  function Trimmed(content: Text): Text {
    if content != [] && content[|content| - 1] == 0 then content[..|content| - 1] else content
  }

  function SeeText(content: Text): View {
    if content == [] then Nothing else Lines(TextParsing.Parsed(Trimmed(content), BAR))
  }

  /** Variants are looked for when the header says that there is extra data, whatever its type. */
  function SeeExtra(header: Header, s: seq<Byte>): View {
    var extra := ReadBytes(s, DataSize(header));
    if Extended(header) && DataSize(header) > 0 && extra.ok && Variants.Deserializes(extra.value) then
      Values(Variants.Decode(extra.value))
    else Update(header)
  }

  function SeeGame(s: seq<Byte>): View {
    if |s| < HEADER_SIZE then Nothing else SeeExtra(s[..HEADER_SIZE], s[HEADER_SIZE..])
  }

  function See(data: seq<Byte>): View {
    var kind := ReadU32(data);
    if !kind.ok then Nothing
    else if kind.value == GAME_MESSAGE || kind.value == GENERIC_TEXT || kind.value == NETWORK_ERROR then
      SeeText(kind.rest)
    else if kind.value == GAME_PACKET then SeeGame(kind.rest)
    else Nothing
  }

  // ----- texts -----

  lemma TextIsSeen(kind: U32, text: Text)
    requires kind == GENERIC_TEXT || kind == GAME_MESSAGE || kind == NETWORK_ERROR
    ensures See(Le32(kind) + text + [0]) == Lines(TextParsing.Parsed(text, BAR))
  {
    Sequences.Regroup(Le32(kind), text, [0]);
    ReadU32Of(kind, text + [0]);
    assert (text + [0])[..|text|] == text;
  }

  /** A script sees the entries of a framed text payload exactly when they survive printing: here the
      length of the text does not matter. */
  lemma SeesText(kind: U32, entries: seq<TextParsing.Entry>, raw: seq<Byte>)
    requires kind == GENERIC_TEXT || kind == GAME_MESSAGE || kind == NETWORK_ERROR
    ensures See(Frame(Message(kind, entries, raw))) == Lines(entries) <==> TextParsing.Good(entries, BAR)
  {
    TextIsSeen(kind, TextParsing.Raw(entries, BAR));
    TextParsing.RoundTrip(entries, BAR);
  }

  // ----- variants -----

  /** As many of the bytes as their number, cut to 32 bits, announces. */
  function Cut(data: seq<Byte>): (cut: seq<Byte>)
    ensures |data| < 0x1_0000_0000 ==> cut == data
    ensures |data| >= 0x1_0000_0000 ==> |cut| + 0x1_0000_0000 <= |data|
  {
    data[..|data| % 0x1_0000_0000]
  }

  function Seen(extra: seq<Byte>, sent: Header): View {
    if extra != [] && Variants.Deserializes(extra) then Values(Variants.Decode(extra)) else Update(sent)
  }

  /** What a script sees of a game packet whose header announces its extra bytes. */
  lemma SeeAnnounced(sent: Header, h: Header, extra: seq<Byte>, tail: seq<Byte>)
    requires Announces(sent, h, |extra|)
    ensures See(Le32(GAME_PACKET) + sent + extra + tail) == Seen(Cut(extra), sent)
  {
    Sequences.RegroupFour(Le32(GAME_PACKET), sent, extra, tail);
    ReadU32Of(GAME_PACKET, sent + (extra + tail));
    SeeSent(sent, h, extra, tail);
  }

  lemma AnnouncedSize(sent: Header, h: Header, size: nat)
    requires Announces(sent, h, size)
    ensures Extended(sent) && DataSize(sent) == size % 0x1_0000_0000
  {
  }

  lemma SeeSent(sent: Header, h: Header, extra: seq<Byte>, tail: seq<Byte>)
    requires Announces(sent, h, |extra|)
    ensures SeeGame(sent + (extra + tail)) == Seen(Cut(extra), sent)
  {
    AnnouncedSize(sent, h, |extra|);
    var s := sent + (extra + tail);
    assert s[..HEADER_SIZE] == sent && s[HEADER_SIZE..] == extra + tail;
    ReadCut(extra, tail);
  }

  lemma ReadCut(extra: seq<Byte>, tail: seq<Byte>)
    ensures ReadBytes(extra + tail, |extra| % 0x1_0000_0000).ok
    ensures ReadBytes(extra + tail, |extra| % 0x1_0000_0000).value == Cut(extra)
  {
  }

  /** The bytes in the strings of a list. */
  function TextSize(vs: seq<Variants.Variant>): nat {
    if vs == [] then 0 else (if vs[0].Str? then |vs[0].text| else 0) + TextSize(vs[1..])
  }

  lemma {:induction false} TextSizeConcat(a: seq<Variants.Variant>, b: seq<Variants.Variant>)
    ensures TextSize(a + b) == TextSize(a) + TextSize(b)
  {
    if a == [] {
      assert a + b == b;
    } else {
      assert (a + b)[1..] == a[1..] + b;
      TextSizeConcat(a[1..], b);
    }
  }

  lemma DecodedOneFits(s: seq<Byte>)
    ensures TextSize(Variants.DecodeOne(s).0) + |Variants.DecodeOne(s).1| <= |s|
  {
    var one := Variants.DecodeOne(s).0;
    assert one != [] ==> one[1..] == [];
  }

  lemma {:induction false} DecodedFit(n: nat, s: seq<Byte>)
    ensures TextSize(Repetition.ReadMany(Variants.DecodeOne, n, s)) <= |s|
    decreases n
  {
    if n > 0 {
      var (one, rest) := Variants.DecodeOne(s);
      DecodedOneFits(s);
      DecodedFit(n - 1, rest);
      TextSizeConcat(one, Repetition.ReadMany(Variants.DecodeOne, n - 1, rest));
    }
  }

  /** Apart from its strings, an item takes at most 14 bytes. */
  lemma {:induction false} WrittenFits(vs: seq<Variants.Variant>, k: nat)
    requires k <= |vs|
    ensures Variants.ItemsSize(vs, k) <= 14 * (|vs| - k) + TextSize(vs[k..])
    decreases |vs| - k
  {
    if k < |vs| {
      WrittenFits(vs, k + 1);
      assert vs[k..][1..] == vs[k + 1..];
    }
  }

  lemma EncodeFits(vs: seq<Variants.Variant>)
    ensures |Variants.Encode(vs)| <= 1 + 14 * |vs| + TextSize(vs)
  {
    Variants.WrittenSize(vs, 0);
    WrittenFits(vs, 0);
    assert vs[0..] == vs;
  }

  lemma DecodeFits(s: seq<Byte>)
    ensures TextSize(Variants.Decode(s)) <= |s| && |Variants.Decode(s)| <= 255
  {
    DecodedFit(ReadByte(s).value, ReadByte(s).rest);
    Variants.DecodedAreShort(ReadByte(s).value, ReadByte(s).rest);
  }

  /** Variants whose wire form takes 2^32 bytes or more are not what is decoded from the bytes that the
      cut size announces. */
  lemma CutIsNotSeen(vs: seq<Variants.Variant>)
    requires |Variants.Encode(vs)| >= 0x1_0000_0000
    ensures Variants.Decode(Cut(Variants.Encode(vs))) != vs
  {
    EncodeFits(vs);
    DecodeFits(Cut(Variants.Encode(vs)));
  }

  lemma WholeIsSeen(vs: seq<Variants.Variant>, sent: Header)
    ensures Seen(Variants.Encode(vs), sent) == Values(vs) <==> 1 <= |vs| <= 255 && Variants.AllShort(vs)
  {
    Variants.RoundTrip(vs, []);
    assert Variants.Encode(vs) + [] == Variants.Encode(vs);
  }

  lemma CallIsSeen(h: Header, vs: seq<Variants.Variant>, raw: seq<Byte>, tail: seq<Byte>)
    ensures See(Print(Call(h, vs, raw)) + tail) == Seen(Cut(Variants.Encode(vs)), CallHeader(h, vs))
  {
    ExtendAnnounces(h[KIND := CALL_FUNCTION], |Variants.Encode(vs)|);
    SeeAnnounced(CallHeader(h, vs), h[KIND := CALL_FUNCTION], Variants.Encode(vs), tail);
  }

  /** Whatever bytes follow, a script sees the variants of a call that was serialized exactly when there
      are 1 to 255 of them, their strings are shorter than 2^32 bytes, and so is all of them together:
      this reader takes as many bytes as the header announces. */
  lemma SeesCall(h: Header, vs: seq<Variants.Variant>, raw: seq<Byte>, tail: seq<Byte>)
    ensures See(Print(Call(h, vs, raw)) + tail) == Values(vs)
       <==> 1 <= |vs| <= 255 && Variants.AllShort(vs) && |Variants.Encode(vs)| < 0x1_0000_0000
  {
    CallIsSeen(h, vs, raw, tail);
    if |Variants.Encode(vs)| < 0x1_0000_0000 {
      WholeIsSeen(vs, CallHeader(h, vs));
    } else {
      CutIsNotSeen(vs);
    }
  }

  /** A game payload with less than 2^32 extra bytes is seen as its header exactly when the first of them
      is zero: otherwise a script is given variants, whatever the type of the packet. */
  lemma SeesGame(h: Header, extra: seq<Byte>, raw: seq<Byte>, tail: seq<Byte>)
    requires 0 < |extra| < 0x1_0000_0000
    ensures See(Print(Game(h, extra, raw)) + tail)
         == if extra[0] == 0 then Update(GameHeader(h, extra)) else Values(Variants.Decode(extra))
  {
    ExtendAnnounces(h, |extra|);
    SeeAnnounced(GameHeader(h, extra), h, extra, tail);
    SeenByFirst(extra, GameHeader(h, extra));
  }

  lemma SeenByFirst(extra: seq<Byte>, sent: Header)
    requires extra != []
    ensures Seen(extra, sent) == if extra[0] == 0 then Update(sent) else Values(Variants.Decode(extra))
  {
  }

  // ----- what gives nothing -----

  lemma KindIs(data: seq<Byte>, kind: U32)
    requires |data| >= 4 && kind < 256
    ensures ReadU32(data).value == kind <==> data[0] == kind && data[1] == 0 && data[2] == 0 && data[3] == 0
  {
    TypeIs(data[0], data[1], data[2], data[3], kind);
  }

  /** A script is given nothing exactly for a packet without a type, of a type that is neither text nor
      game packet, with an empty text, or too short for a header. */
  lemma NothingIff(data: seq<Byte>)
    ensures See(data) == Nothing <==>
      || |data| < 4
      || (data[0] < 2 || data[0] > 5 || data[1] != 0 || data[2] != 0 || data[3] != 0)
      || (data[0] == 4 && |data| < 60)
      || (data[0] != 4 && |data| == 4)
  {
    if |data| >= 4 {
      KindIs(data, GENERIC_TEXT);
      KindIs(data, GAME_MESSAGE);
      KindIs(data, GAME_PACKET);
      KindIs(data, NETWORK_ERROR);
    }
  }

  /** It is given the header when that announces nothing, or more than follows. */
  lemma HeaderIsSeen(h: Header, rest: seq<Byte>)
    requires h[FLAGS] / 8 % 2 == 0 || DataSize(h) == 0 || DataSize(h) > |rest|
    ensures See(Le32(GAME_PACKET) + h + rest) == Update(h)
  {
    Sequences.Regroup(Le32(GAME_PACKET), h, rest);
    ReadU32Of(GAME_PACKET, h + rest);
    assert (h + rest)[..HEADER_SIZE] == h && (h + rest)[HEADER_SIZE..] == rest;
  }

  // ----- the procedure -----

  method ParsePacket(data: seq<Byte>) returns (view: View)
    ensures view == if data == [] then Nothing else See(data)
  {
    if data == [] {
      return Nothing;
    }
    var stream, ok, kind := Open(data);
    if !ok {
      return Nothing;
    }
    if kind == GAME_MESSAGE || kind == GENERIC_TEXT || kind == NETWORK_ERROR {
      var content := data[stream.readOffset..];
      if |content| > 0 {
        if content[|content| - 1] == 0 {
          content := content[..|content| - 1];
        }
        var parse := new TextParsing.TextParse();
        parse.Parse(content, BAR);
        return Lines(parse.data);
      }
    } else if kind == GAME_PACKET {
      view := ParseUpdate(stream);
      return;
    }
    return Nothing;
  }

  method ParseUpdate(stream: ByteStream) returns (view: View)
    requires stream.Valid()
    modifies stream`readOffset
    ensures view == SeeGame(old(stream.Rest()))
  {
    var ok, header := stream.ReadData(HEADER_SIZE);
    if !ok {
      return Nothing;
    }
    view := ParseExtra(stream, header);
  }

  method ParseExtra(stream: ByteStream, header: Header) returns (view: View)
    requires stream.Valid()
    modifies stream`readOffset
    ensures view == SeeExtra(header, old(stream.Rest()))
  {
    if Extended(header) && DataSize(header) > 0 {
      var ok, extra := stream.ReadData(DataSize(header));
      if ok {
        var variants := new Variants.PacketVariant([]);
        var read := variants.Deserialize(extra);
        if read {
          return Values(variants.variants);
        }
      }
    }
    return Update(header);
  }
}
