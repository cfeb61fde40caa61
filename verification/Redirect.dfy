/** `packet::game::OnSendToServer`: the call that sends a client to another server, and the rewrite by
    which the proxy puts itself in between. */
module Redirect {
  import opened Bytes
  import opened Repetition
  import opened Variants
  import opened Wrappers
  import Packets
  import TextParsing

  datatype Target = Target(port: U16, token: I32, user: I32, address: Text, doorId: Text, uuidToken: Text,
                           loginMode: Byte, username: Text)

  /** "OnSendToServer" */
  const NAME: Text := [79, 110, 83, 101, 110, 100, 84, 111, 83, 101, 114, 118, 101, 114]

  /** The text up to the first delimiter, all of it when there is none. */
  function Before(t: Text, d: Byte): Text {
    if t == [] || t[0] == d then [] else [t[0]] + Before(t[1..], d)
  }

  /** One text holds the address, the door and the token. */
  function Assemble(port: U16, token: I32, user: I32, text: Text, loginMode: Byte, username: Text): Target {
    var key, data := Before(text, BAR), TextParsing.Parsed(text, BAR);
    Target(port, token, user, key, TextParsing.Get(data, key, 0), TextParsing.Get(data, key, 1), loginMode, username)
  }

  /** The fields that `read` assigns from a variant list; missing or mistyped variants give zeros. */
  function Fields(vs: seq<Variant>): Target {
    Assemble(ToU16(GetSigned(vs, 1)), GetSigned(vs, 2), GetSigned(vs, 3), GetText(vs, 4),
             ToByte(GetUnsigned(vs, 5)), GetText(vs, 6))
  }

  function Address(p: Target): Text {
    TextParsing.Raw([TextParsing.Entry(p.address, [p.doorId, p.uuidToken])], BAR)
  }

  function Arguments(p: Target): seq<Variant> {
    [Str(NAME), Signed(p.port), Signed(p.token), Signed(p.user), Str(Address(p)), Unsigned(p.loginMode),
     Str(p.username)]
  }

  lemma NameIsExact()
    ensures |NAME| == |"OnSendToServer"| && forall i :: 0 <= i < |NAME| ==> NAME[i] == "OnSendToServer"[i] as int
  {
  }

  // ----- what reading guarantees -----

  /** The key is what stands before the first delimiter. */
  lemma {:induction false} BeforeIsExact(t: Text, d: Byte)
    ensures d !in Before(t, d) && Before(t, d) <= t
    ensures Before(t, d) == t || t[|Before(t, d)|] == d
  {
    if t == [] || t[0] == d {
    } else {
      BeforeIsExact(t[1..], d);
      BeforeStep(t, Before(t[1..], d));
    }
  }

  lemma BeforeStep(t: Text, rest: Text)
    requires t != [] && rest <= t[1..]
    ensures [t[0]] + rest <= t
    ensures if rest == t[1..] then [t[0]] + rest == t else t[|rest| + 1] == t[1..][|rest|]
  {
  }

  /** The fields, place by place: signed numbers at 1, 2 and 3, an unsigned one at 5, texts at 4 and 6; the
      port is cut to 16 bits and the login mode to 8. */
  lemma FieldsAreExact(vs: seq<Variant>)
    ensures var p := Fields(vs);
      && p.port == (if |vs| > 1 && vs[1].Signed? then vs[1].value % 0x1_0000 else 0)
      && p.token == (if |vs| > 2 && vs[2].Signed? then vs[2].value else 0)
      && p.user == (if |vs| > 3 && vs[3].Signed? then vs[3].value else 0)
      && p.loginMode == (if |vs| > 5 && vs[5].Unsigned? then vs[5].number % 256 else 0)
      && p.username == (if |vs| > 6 && vs[6].Str? then vs[6].text else [])
    ensures var p, text := Fields(vs), if |vs| > 4 && vs[4].Str? then vs[4].text else [];
      && BAR !in p.address && p.address <= text && (p.address == text || text[|p.address|] == BAR)
      && p.doorId == TextParsing.Get(TextParsing.Parsed(text, BAR), p.address, 0)
      && p.uuidToken == TextParsing.Get(TextParsing.Parsed(text, BAR), p.address, 1)
  {
    BeforeIsExact(GetText(vs, 4), BAR);
  }

  lemma {:induction false} GetIsClean(data: seq<TextParsing.Entry>, key: Text, index: int, d: Byte)
    requires TextParsing.Good(data, d)
    ensures TextParsing.Clean(TextParsing.Get(data, key, index), d)
  {
    if data == [] {
    } else {
      assert data[0] in data;
      GetIsClean(data[1..], key, index, d);
    }
  }

  /** Whatever is read, the door and the token have no delimiter and no line break. */
  lemma FieldsAreClean(vs: seq<Variant>)
    ensures TextParsing.Clean(Fields(vs).doorId, BAR) && TextParsing.Clean(Fields(vs).uuidToken, BAR)
  {
    var text := GetText(vs, 4);
    TextParsing.ParseIsGood(text, BAR);
    GetIsClean(TextParsing.Parsed(text, BAR), Before(text, BAR), 0, BAR);
    GetIsClean(TextParsing.Parsed(text, BAR), Before(text, BAR), 1, BAR);
  }

  // ----- the text of the address, the door and the token -----

  lemma {:induction false} BeforeStops(a: Text, rest: Text, d: Byte)
    ensures Before(a + [d] + rest, d) == a <==> d !in a
    ensures d !in Before(a + [d] + rest, d)
  {
    var t := a + [d] + rest;
    if a == [] {
    } else {
      assert t[1..] == a[1..] + [d] + rest;
      BeforeStops(a[1..], rest, d);
      assert a == [a[0]] + a[1..];
    }
  }

  lemma AddressText(p: Target)
    ensures Address(p) == p.address + [BAR] + (p.doorId + [BAR] + p.uuidToken)
  {
    TextParsing.RawOfPair(p.address, p.doorId, p.uuidToken, BAR);
  }

  /** What comes back for the address, the door and the token. */
  function AddressBack(p: Target): Text {
    Before(Address(p), BAR)
  }

  function ValueBack(p: Target, index: int): Text {
    TextParsing.Get(TextParsing.Parsed(Address(p), BAR), AddressBack(p), index)
  }

  lemma GoodAddressComesBack(p: Target)
    requires TextParsing.Clean(p.address, BAR) && p.address != []
    requires TextParsing.Clean(p.doorId, BAR) && TextParsing.Clean(p.uuidToken, BAR)
    ensures AddressBack(p) == p.address && ValueBack(p, 0) == p.doorId && ValueBack(p, 1) == p.uuidToken
  {
    AddressText(p);
    BeforeStops(p.address, p.doorId + [BAR] + p.uuidToken, BAR);
    TextParsing.RoundTrip([TextParsing.Entry(p.address, [p.doorId, p.uuidToken])], BAR);
  }

  /** An address that is empty, or has a line break, is not the key of anything that is parsed. */
  lemma BadAddressFindsNothing(p: Target, index: int)
    requires BAR !in p.address && (p.address == [] || NEWLINE in p.address)
    ensures AddressBack(p) == p.address && ValueBack(p, index) == []
  {
    AddressText(p);
    BeforeStops(p.address, p.doorId + [BAR] + p.uuidToken, BAR);
    TextParsing.ParseIsGood(Address(p), BAR);
    TextParsing.GetOfNone(TextParsing.Parsed(Address(p), BAR), p.address, index);
  }

  /** The addresses that the text form can carry beside a door and a token. */
  predicate Carries(address: Text, doorId: Text, uuidToken: Text) {
    && BAR !in address
    && ((doorId == [] && uuidToken == []) || (address != [] && NEWLINE !in address))
  }

  lemma AddressComesBack(p: Target)
    requires TextParsing.Clean(p.doorId, BAR) && TextParsing.Clean(p.uuidToken, BAR)
    ensures AddressBack(p) == p.address && ValueBack(p, 0) == p.doorId && ValueBack(p, 1) == p.uuidToken
       <==> Carries(p.address, p.doorId, p.uuidToken)
  {
    if BAR in p.address {
      AddressText(p);
      BeforeStops(p.address, p.doorId + [BAR] + p.uuidToken, BAR);
    } else if p.address == [] || NEWLINE in p.address {
      BadAddressFindsNothing(p, 0);
      BadAddressFindsNothing(p, 1);
    } else {
      GoodAddressComesBack(p);
    }
  }

  lemma FieldsOfArguments(p: Target)
    requires TextParsing.Clean(p.doorId, BAR) && TextParsing.Clean(p.uuidToken, BAR)
    ensures Fields(Arguments(p)) == p <==> Carries(p.address, p.doorId, p.uuidToken)
  {
    AddressComesBack(p);
    ArgumentsBack(p);
  }

  lemma ArgumentsBack(p: Target)
    ensures Fields(Arguments(p))
         == p.(address := AddressBack(p), doorId := ValueBack(p, 0), uuidToken := ValueBack(p, 1))
  {
    GetArguments(p);
    AssembleBack(p);
  }

  lemma GetArguments(p: Target)
    ensures var vs := Arguments(p);
            && ToU16(GetSigned(vs, 1)) == p.port && GetSigned(vs, 2) == p.token && GetSigned(vs, 3) == p.user
            && GetText(vs, 4) == Address(p) && ToByte(GetUnsigned(vs, 5)) == p.loginMode
            && GetText(vs, 6) == p.username
  {
  }

  lemma AssembleBack(p: Target)
    ensures Assemble(p.port, p.token, p.user, Address(p), p.loginMode, p.username)
         == p.(address := AddressBack(p), doorId := ValueBack(p, 0), uuidToken := ValueBack(p, 1))
  {
  }

  // ----- end to end -----

  /** What the other end has once it has received the packet and read it. */
  function Received(p: Target, header: Packets.Header): Option<Packets.Payload> {
    Packets.Parse(Packets.Frame(Packets.Call(header, Arguments(p), [])))
  }

  /** The strings that a variant list can carry. */
  predicate Fits(p: Target) {
    |Address(p)| < 0x1_0000_0000 && |p.username| < 0x1_0000_0000
  }

  /** The variants that are received, before they are read. */
  function Arrived(p: Target): seq<Variant> {
    Decode(Encode(Arguments(p)) + [0])
  }

  lemma ReceivesCall(p: Target, header: Packets.Header)
    ensures var frame := Packets.Frame(Packets.Call(header, Arguments(p), []));
            Received(p, header) == Some(Packets.Call(Packets.CallHeader(header, Arguments(p)), Arrived(p), frame))
  {
    Packets.ParseOfCall(header, Arguments(p), [], [0]);
    ArgumentsAreRead(p);
    CallFrame(header, Arguments(p));
  }

  lemma ArgumentsAreRead(p: Target)
    ensures Deserializes(Encode(Arguments(p)) + [0])
  {
    ReadOfCounted(EncodeOne, DecodeOne, Arguments(p), [0]);
  }

  lemma CallFrame(header: Packets.Header, vs: seq<Variant>)
    ensures Packets.Frame(Packets.Call(header, vs, [])) == Packets.Print(Packets.Call(header, vs, [])) + [0]
  {
  }

  lemma {:induction false} BeforeIsNoLonger(t: Text, d: Byte)
    ensures |Before(t, d)| <= |t|
  {
    if t == [] || t[0] == d {
    } else {
      BeforeIsNoLonger(t[1..], d);
    }
  }

  /** An address, a door and a token that are read fit into the text they are read from. */
  lemma PartsFit(text: Text)
    ensures var key, data := Before(text, BAR), TextParsing.Parsed(text, BAR);
            |key| + |TextParsing.Get(data, key, 0)| + |TextParsing.Get(data, key, 1)| <= |text|
  {
    BeforeIsNoLonger(text, BAR);
    TextParsing.FoundInText(text, Before(text, BAR), BAR);
  }

  lemma LongAddressIsLost(p: Target)
    requires |Address(p)| >= 0x1_0000_0000
    ensures Fields(Arrived(p)) != p
  {
    LongTextIsCut(Arguments(p), 4, [0]);
    var back := Fields(Arrived(p));
    PartsFit(GetText(Arrived(p), 4));
    AddressText(p);
    assert |back.address| + |back.doorId| + |back.uuidToken| < |p.address| + |p.doorId| + |p.uuidToken|;
  }

  lemma LongUsernameIsLost(p: Target)
    requires |Address(p)| < 0x1_0000_0000 <= |p.username|
    ensures Fields(Arrived(p)) != p
  {
    LongTextIsCut(Arguments(p), 6, [0]);
    assert |Fields(Arrived(p)).username| < |p.username|;
  }

  lemma ArrivesWhole(p: Target)
    requires Fits(p)
    ensures Arrived(p) == Arguments(p)
  {
    RoundTrip(Arguments(p), [0]);
  }

  /** The packets that survive the whole way: their door and token are as `read` leaves them, their
      strings fit, and the text form can carry their address. */
  predicate Survives(p: Target) {
    && TextParsing.Clean(p.doorId, BAR) && TextParsing.Clean(p.uuidToken, BAR)
    && Fits(p) && Carries(p.address, p.doorId, p.uuidToken)
  }

  lemma ArrivesIff(p: Target)
    ensures Fields(Arrived(p)) == p <==> Survives(p)
  {
    if !(TextParsing.Clean(p.doorId, BAR) && TextParsing.Clean(p.uuidToken, BAR)) {
      FieldsAreClean(Arrived(p));
    } else if |Address(p)| >= 0x1_0000_0000 {
      LongAddressIsLost(p);
    } else if |p.username| >= 0x1_0000_0000 {
      LongUsernameIsLost(p);
    } else {
      ArrivesWhole(p);
      FieldsOfArguments(p);
    }
  }

  /** Written, serialized, sent with its zero byte, decoded and read, a packet is the same again
      exactly when it meets that condition. */
  lemma EndToEnd(p: Target, header: Packets.Header)
    ensures Received(p, header).Some? && Received(p, header).value.Call?
    ensures Fields(Received(p, header).value.variants) == p <==> Survives(p)
  {
    ReceivesCall(p, header);
    ArrivesIff(p);
  }

  /** What the proxy sends for a packet: the same but for the address and the port. */
  function RewrittenFrame(p: Target, header: Packets.Header, address: Text, port: U16): seq<Byte> {
    Packets.Frame(Packets.Call(header, Arguments(p.(address := address, port := port)), []))
  }

  /** The two packets differ in address and port only, which are the given ones. */
  predicate IsRewritten(q: Target, p: Target, address: Text, port: U16) {
    && q.address == address && q.port == port
    && q.token == p.token && q.user == p.user && q.doorId == p.doorId && q.uuidToken == p.uuidToken
    && q.loginMode == p.loginMode && q.username == p.username
  }

  /** The proxy's rewrite: whatever variants a packet was read from, the frame that is sent for it arrives
      as a call, with an address without delimiters and a port that are the given ones and with nothing
      else changed, exactly as far as the strings fit. */
  lemma RewritePreserves(vs: seq<Variant>, header: Packets.Header, address: Text, port: U16)
    requires address != [] && TextParsing.Clean(address, BAR)
    ensures var p, r := Fields(vs), Packets.Parse(RewrittenFrame(Fields(vs), header, address, port));
            && r.Some? && r.value.Call?
            && (IsRewritten(Fields(r.value.variants), p, address, port) <==>
                |address| + |p.doorId| + |p.uuidToken| + 2 < 0x1_0000_0000 && |p.username| < 0x1_0000_0000)
  {
    var q := Fields(vs).(address := address, port := port);
    FieldsAreClean(vs);
    EndToEnd(q, header);
    AddressText(q);
  }

  // ----- the packet object -----

  class OnSendToServer {
    var port: U16
    var token: I32
    var user: I32
    var address: Text
    var doorId: Text
    var uuidToken: Text
    var loginMode: Byte
    var username: Text
    var variant: seq<Variant>
    var gamePacket: Packets.Header

    constructor (p: Target, header: Packets.Header)
      ensures Value() == p && gamePacket == header && variant == []
    {
      port, token, user := p.port, p.token, p.user;
      address, doorId, uuidToken := p.address, p.doorId, p.uuidToken;
      loginMode, username := p.loginMode, p.username;
      variant, gamePacket := [], header;
    }

    ghost function Value(): Target
      reads this
    {
      Target(port, token, user, address, doorId, uuidToken, loginMode, username)
    }

    /** The variants and the header are kept even when there are too few variants to read. */
    method Read(payload: Packets.Payload) returns (ok: bool)
      modifies this
      ensures ok == (payload.Call? && |payload.variants| >= 5)
      ensures Value() == if ok then Fields(payload.variants) else old(Value())
      ensures variant == if payload.Call? then payload.variants else old(variant)
      ensures gamePacket == if payload.Call? then payload.header else old(gamePacket)
    {
      if !payload.Call? {
        return false;
      }
      variant := payload.variants;
      gamePacket := payload.header;
      if |variant| < 5 {
        return false;
      }
      ReadNumbers();
      ReadText(GetText(variant, 4));
      ok := true;
    }

    method ReadNumbers()
      modifies this`port, this`token, this`user, this`loginMode, this`username
      ensures Value() == Fields(variant).(address := address, doorId := doorId, uuidToken := uuidToken)
    {
      port := ToU16(GetSigned(variant, 1));
      token := GetSigned(variant, 2);
      user := GetSigned(variant, 3);
      loginMode := ToByte(GetUnsigned(variant, 5));
      username := GetText(variant, 6);
    }

    method ReadText(text: Text)
      modifies this`address, this`doorId, this`uuidToken
      ensures address == Before(text, BAR)
      ensures doorId == TextParsing.Get(TextParsing.Parsed(text, BAR), address, 0)
      ensures uuidToken == TextParsing.Get(TextParsing.Parsed(text, BAR), address, 1)
    {
      var parse := new TextParsing.TextParse();
      parse.Parse(text, BAR);
      address := Before(text, BAR);
      doorId := parse.GetText(address, 0);
      uuidToken := parse.GetText(address, 1);
    }

    method Write() returns (payload: Packets.Payload)
      ensures payload == Packets.Call(gamePacket, Arguments(Value()), [])
      ensures payload.variants[0] == Str(NAME) && payload.variants[1] == Signed(port)
      ensures payload.variants[2] == Signed(token) && payload.variants[3] == Signed(user)
      ensures payload.variants[4] == Str(address + [BAR] + (doorId + [BAR] + uuidToken))
      ensures payload.variants[5] == Unsigned(loginMode) && payload.variants[6..] == [Str(username)]
    {
      AddressText(Value());
      var parse := new TextParsing.TextParse();
      parse.Add(address, [doorId, uuidToken]);
      assert parse.data == [TextParsing.Entry(address, [doorId, uuidToken])];
      var text := parse.GetRaw(BAR, []);
      payload := Packets.Call(gamePacket, [Str(NAME), Signed(port), Signed(token), Signed(user), Str(text),
                                           Unsigned(loginMode), Str(username)], []);
    }
  }

  /** The handler: a copy with the proxy's address and port is sent. */
  method Rewrite(packet: OnSendToServer, address: Text, port: U16) returns (frame: seq<Byte>)
    ensures frame == RewrittenFrame(packet.Value(), packet.gamePacket, address, port)
  {
    var copy := new OnSendToServer(
      Target(port, packet.token, packet.user, address, packet.doorId, packet.uuidToken, packet.loginMode,
             packet.username),
      packet.gamePacket);
    var payload := copy.Write();
    var data := Packets.Serialize(payload);
    frame := if data == [] then [] else data + [0];
  }
}
