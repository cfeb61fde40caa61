/** `utils::TextParse`: lines of a key and its values, with a one-byte delimiter. */
module TextParsing {
  import opened Bytes
  import Sequences

  /** One line: the key and the values that follow it. */
  datatype Entry = Entry(key: Text, values: seq<Text>)

  // ----- splitting and joining -----

  /** The pieces between the delimiters: one more than there are delimiters. */
  function Split(s: Text, d: Byte): (pieces: seq<Text>)
    ensures pieces != []
  {
    if s == [] then [[]]
    else if s[0] == d then [[]] + Split(s[1..], d)
    else
      var rest := Split(s[1..], d);
      [[s[0]] + rest[0]] + rest[1..]
  }

  /** Every piece, each after a delimiter. */
  function Follow(pieces: seq<Text>, d: Byte): Text {
    if pieces == [] then [] else [d] + pieces[0] + Follow(pieces[1..], d)
  }

  function DropLeadingEmpty(pieces: seq<Text>): (kept: seq<Text>)
    ensures kept != [] ==> kept[0] != []
  {
    if pieces != [] && pieces[0] == [] then DropLeadingEmpty(pieces[1..]) else pieces
  }

  function DropEmpty(pieces: seq<Text>): seq<Text> {
    if pieces == [] then []
    else (if pieces[0] == [] then [] else [pieces[0]]) + DropEmpty(pieces[1..])
  }

  function Tokens(s: Text, d: Byte, keepEmpty: bool): seq<Text> {
    if s == [] then [] else if keepEmpty then DropLeadingEmpty(Split(s, d)) else DropEmpty(Split(s, d))
  }

  // ----- parsing and printing -----

  /** A line with fewer than two tokens is passed over. */
  function ParseLine(line: Text, d: Byte): seq<Entry> {
    var tokens := Tokens(line, d, true);
    if |tokens| < 2 then [] else [Entry(tokens[0], tokens[1..])]
  }

  function ParseLines(lines: seq<Text>, d: Byte): seq<Entry> {
    if lines == [] then [] else ParseLine(lines[0], d) + ParseLines(lines[1..], d)
  }

  function Parsed(s: Text, d: Byte): seq<Entry> {
    ParseLines(Tokens(s, NEWLINE, true), d)
  }

  function Line(e: Entry, d: Byte): Text {
    e.key + Follow(e.values, d)
  }

  /** No line break is written before an entry whose key is empty. */
  function RawFrom(data: seq<Entry>, i: nat, d: Byte, prepend: Text): Text
    requires i <= |data|
    decreases |data| - i
  {
    if i == |data| then []
    else prepend + Line(data[i], d) + LineEnd(data, i) + RawFrom(data, i + 1, d, prepend)
  }

  /** A newline follows entry `i` when the next one has a key. */
  function LineEnd(data: seq<Entry>, i: nat): Text {
    if i + 1 < |data| && data[i + 1].key != [] then [NEWLINE] else []
  }

  function Raw(data: seq<Entry>, d: Byte): Text {
    RawFrom(data, 0, d, [])
  }

  /** The value of the first entry with that key; empty when there is no such entry or value. */
  function Get(data: seq<Entry>, key: Text, index: int): Text {
    if data == [] then []
    else if data[0].key == key then
      if 0 <= index < |data[0].values| then data[0].values[index] else []
    else Get(data[1..], key, index)
  }

  // ----- looking a value up -----

  /** The first entry with the key is the one that is read, wherever it stands, and no other. */
  lemma {:induction false} GetOfFirst(data: seq<Entry>, key: Text, k: nat, index: int)
    requires k < |data| && data[k].key == key && forall j :: 0 <= j < k ==> data[j].key != key
    ensures Get(data, key, index) == if 0 <= index < |data[k].values| then data[k].values[index] else []
    decreases k
  {
    if k > 0 {
      GetOfFirst(data[1..], key, k - 1, index);
    }
  }

  lemma {:induction false} GetOfNone(data: seq<Entry>, key: Text, index: int)
    requires forall e :: e in data ==> e.key != key
    ensures Get(data, key, index) == []
  {
    if data == [] {
    } else {
      assert data[0] in data;
      GetOfNone(data[1..], key, index);
    }
  }

  // ----- what survives -----

  predicate Clean(t: Text, d: Byte) {
    d !in t && NEWLINE !in t
  }

  predicate GoodEntry(e: Entry, d: Byte) {
    && e.key != [] && e.values != [] && Clean(e.key, d)
    && forall v :: v in e.values ==> Clean(v, d)
  }

  /** Entries that the text form can carry; empty values are fine. */
  predicate Good(data: seq<Entry>, d: Byte) {
    forall e :: e in data ==> GoodEntry(e, d) && d != NEWLINE
  }

  lemma {:induction false} SplitOne(p: Text, d: Byte)
    requires d !in p
    ensures Split(p, d) == [p]
  {
    if p == [] {
    } else {
      SplitOne(p[1..], d);
      assert [p[0]] + p[1..] == p;
    }
  }

  lemma {:induction false} SplitAt(p: Text, rest: Text, d: Byte)
    requires d !in p
    ensures Split(p + [d] + rest, d) == [p] + Split(rest, d)
  {
    if p == [] {
      assert (p + [d] + rest)[1..] == rest;
    } else {
      SplitAt(p[1..], rest, d);
      assert (p + [d] + rest)[1..] == p[1..] + [d] + rest;
      assert [p[0]] + p[1..] == p;
    }
  }

  lemma FollowCons(piece: Text, pieces: seq<Text>, d: Byte)
    ensures Follow([piece] + pieces, d) == [d] + piece + Follow(pieces, d)
  {
    assert ([piece] + pieces)[1..] == pieces;
  }

  lemma RawOfPair(key: Text, x: Text, y: Text, d: Byte)
    ensures Raw([Entry(key, [x, y])], d) == key + [d] + (x + [d] + y)
  {
    assert [x, y] == [x] + [y] && [y] == [y] + [];
    FollowCons(x, [y], d);
    FollowCons(y, [], d);
    assert RawFrom([Entry(key, [x, y])], 1, d, []) == [];
    assert Raw([Entry(key, [x, y])], d)
        == [] + Line(Entry(key, [x, y]), d) + [] + RawFrom([Entry(key, [x, y])], 1, d, []);
    assert Raw([Entry(key, [x, y])], d) == key + Follow([x, y], d);
    assert key + ([d] + x + ([d] + y)) == key + [d] + (x + [d] + y);
  }

  /** Splitting undoes joining for pieces without the delimiter. */
  lemma {:induction false} SplitJoined(first: Text, others: seq<Text>, d: Byte)
    requires d !in first && forall p :: p in others ==> d !in p
    ensures Split(first + Follow(others, d), d) == [first] + others
    decreases |others|
  {
    if others == [] {
      assert first + Follow(others, d) == first;
      SplitOne(first, d);
    } else {
      SplitJoined(others[0], others[1..], d);
      assert first + Follow(others, d) == first + [d] + (others[0] + Follow(others[1..], d));
      SplitAt(first, others[0] + Follow(others[1..], d), d);
    }
  }

  /** Every piece lies in the text and has no delimiter. */
  lemma {:induction false} SplitPieces(s: Text, d: Byte)
    ensures forall p :: p in Split(s, d) ==> d !in p && forall c :: c in p ==> c in s
  {
    if s == [] {
    } else {
      SplitPieces(s[1..], d);
      var rest := Split(s[1..], d);
      if s[0] != d {
        assert rest[0] in rest;
        forall p | p in Split(s, d) ensures d !in p && forall c :: c in p ==> c in s {
          assert p == [s[0]] + rest[0] || p in rest;
        }
      }
    }
  }

  /** With the above, `Split` is the only list of delimiter-free pieces that join back to the text. */
  lemma {:induction false} JoinOfSplit(s: Text, d: Byte)
    ensures Split(s, d)[0] + Follow(Split(s, d)[1..], d) == s
  {
    if s == [] {
    } else {
      JoinOfSplit(s[1..], d);
      var rest := Split(s[1..], d);
      assert s == [s[0]] + (rest[0] + Follow(rest[1..], d));
      Sequences.Regroup([s[0]], rest[0], Follow(rest[1..], d));
      assert Split(s, d)[1..] == if s[0] == d then rest else rest[1..];
    }
  }

  lemma {:induction false} DropLeadingEmptyKeeps(pieces: seq<Text>)
    ensures forall p :: p in DropLeadingEmpty(pieces) ==> p in pieces
  {
    if pieces != [] && pieces[0] == [] {
      DropLeadingEmptyKeeps(pieces[1..]);
    }
  }

  lemma TokensAreClean(s: Text, d: Byte)
    ensures forall t :: t in Tokens(s, d, true) ==> d !in t && forall c :: c in t ==> c in s
  {
    SplitPieces(s, d);
    DropLeadingEmptyKeeps(Split(s, d));
  }

  // ----- tokens and lines, text by text -----

  /** The pieces of two texts with a delimiter in between are the pieces of both. */
  lemma {:induction false} SplitConcat(a: Text, b: Text, d: Byte)
    ensures Split(a + [d] + b, d) == Split(a, d) + Split(b, d)
  {
    if a == [] {
      assert (a + [d] + b)[1..] == b;
    } else {
      SplitConcat(a[1..], b, d);
      assert (a + [d] + b)[1..] == a[1..] + [d] + b;
      SplitStep(a[0], Split(a[1..], d), Split(b, d));
    }
  }

  /** One more byte in front of pieces that are followed by others. */
  lemma SplitStep(c: Byte, rest: seq<Text>, others: seq<Text>)
    requires rest != []
    ensures [[]] + (rest + others) == [[]] + rest + others
    ensures [[c] + (rest + others)[0]] + (rest + others)[1..] == [[c] + rest[0]] + rest[1..] + others
  {
  }

  lemma {:induction false} DropEmptyConcat(a: seq<Text>, b: seq<Text>)
    ensures DropEmpty(a + b) == DropEmpty(a) + DropEmpty(b)
  {
    if a == [] {
      assert a + b == b;
    } else {
      assert (a + b)[1..] == a[1..] + b;
      DropEmptyConcat(a[1..], b);
    }
  }

  lemma TokensIsDropEmpty(s: Text, d: Byte)
    ensures Tokens(s, d, false) == DropEmpty(Split(s, d))
  {
    if s == [] {
      assert Split(s, d)[1..] == [];
    }
  }

  /** Without empty tokens, the tokens of a text are those of its parts, and a part without a delimiter
      is one token unless it is empty. */
  lemma TokensWithoutEmpty(a: Text, b: Text, p: Text, d: Byte)
    requires d !in p
    ensures Tokens(a + [d] + b, d, false) == Tokens(a, d, false) + Tokens(b, d, false)
    ensures Tokens(p, d, false) == if p == [] then [] else [p]
  {
    TokensIsDropEmpty(a, d);
    TokensIsDropEmpty(b, d);
    SplitConcat(a, b, d);
    DropEmptyConcat(Split(a, d), Split(b, d));
    SplitOne(p, d);
    assert [p][1..] == [];
    assert DropEmpty([p]) == (if p == [] then [] else [p]) + [];
    TokensIsDropEmpty(p, d);
    TokensIsDropEmpty(a + [d] + b, d);
  }

  /** With empty tokens kept, leading delimiters are still passed over; what follows them is split at
      every delimiter. */
  lemma TokensAfterLeading(s: Text, d: Byte)
    ensures s != [] && s[0] == d ==> Tokens(s, d, true) == Tokens(s[1..], d, true)
    ensures s != [] && s[0] != d ==> Tokens(s, d, true) == Split(s, d)
    ensures Tokens([], d, true) == []
  {
    if s != [] && s[0] == d {
      var rest := Split(s[1..], d);
      assert Split(s, d)[1..] == rest;
      if s == [d] {
        assert rest[1..] == [] && DropLeadingEmpty(rest) == DropLeadingEmpty(rest[1..]);
      }
    }
  }

  lemma {:induction false} ParseLinesConcat(a: seq<Text>, b: seq<Text>, d: Byte)
    ensures ParseLines(a + b, d) == ParseLines(a, d) + ParseLines(b, d)
  {
    if a == [] {
      assert a + b == b;
    } else {
      assert (a + b)[1..] == a[1..] + b;
      ParseLinesConcat(a[1..], b, d);
    }
  }

  lemma {:induction false} ParseWithoutLeading(lines: seq<Text>, d: Byte)
    ensures ParseLines(DropLeadingEmpty(lines), d) == ParseLines(lines, d)
  {
    if lines != [] && lines[0] == [] {
      ParseWithoutLeading(lines[1..], d);
      EmptyLineFirst(lines, d);
    }
  }

  lemma EmptyLine(d: Byte)
    ensures ParseLine([], d) == []
  {
  }

  lemma EmptyLineFirst(lines: seq<Text>, d: Byte)
    requires lines != [] && lines[0] == []
    ensures ParseLines(lines, d) == ParseLines(lines[1..], d)
    ensures DropLeadingEmpty(lines) == DropLeadingEmpty(lines[1..])
  {
    EmptyLine(d);
    assert [] + ParseLines(lines[1..], d) == ParseLines(lines[1..], d);
  }

  lemma ParsedIsLines(s: Text, d: Byte)
    ensures Parsed(s, d) == ParseLines(Split(s, NEWLINE), d)
  {
    ParseWithoutLeading(Split(s, NEWLINE), d);
    if s == [] {
      assert Split(s, NEWLINE)[1..] == [] && ParseLine([], d) == [];
    }
  }

  /** Parsing goes line by line ... */
  lemma ParsedByLine(a: Text, b: Text, d: Byte)
    ensures Parsed(a + [NEWLINE] + b, d) == Parsed(a, d) + Parsed(b, d)
  {
    ParsedIsLines(a, d);
    ParsedIsLines(b, d);
    ParsedIsLines(a + [NEWLINE] + b, d);
    SplitConcat(a, b, NEWLINE);
    ParseLinesConcat(Split(a, NEWLINE), Split(b, NEWLINE), d);
  }

  /** ... and a line gives one entry, its first token and the others, or none without a second one. */
  lemma ParsedOfLine(line: Text, d: Byte)
    requires NEWLINE !in line
    ensures var tokens := Tokens(line, d, true);
            (if |tokens| < 2 then Parsed(line, d) == []
             else Parsed(line, d) == [Entry(tokens[0], tokens[1..])])
  {
    ParsedIsLines(line, d);
    SplitOne(line, NEWLINE);
    assert [line][1..] == [];
  }

  // ----- printing, entry by entry -----

  lemma {:induction false} RawOfLater(a: seq<Entry>, b: seq<Entry>, i: nat, d: Byte, prepend: Text)
    requires i <= |b|
    ensures RawFrom(a + b, |a| + i, d, prepend) == RawFrom(b, i, d, prepend)
    decreases |b| - i
  {
    if i < |b| {
      RawOfLater(a, b, i + 1, d, prepend);
      assert (a + b)[|a| + i] == b[i];
      assert LineEnd(a + b, |a| + i) == LineEnd(b, i);
    }
  }

  lemma {:induction false} RawOfEarlier(a: seq<Entry>, b: seq<Entry>, i: nat, d: Byte, prepend: Text)
    requires i < |a| && b != []
    ensures RawFrom(a + b, i, d, prepend)
         == RawFrom(a, i, d, prepend) + ((if b[0].key == [] then [] else [NEWLINE]) + RawFrom(b, 0, d, prepend))
    decreases |a| - i
  {
    var end := (if b[0].key == [] then [] else [NEWLINE]) + RawFrom(b, 0, d, prepend);
    var line := prepend + Line(a[i], d);
    assert (a + b)[i] == a[i];
    if i + 1 == |a| {
      RawOfLater(a, b, 0, d, prepend);
      assert LineEnd(a, i) == [] && RawFrom(a, i + 1, d, prepend) == [];
      assert line + [] + [] == line;
      Sequences.Regroup(line, LineEnd(a + b, i), RawFrom(b, 0, d, prepend));
    } else {
      RawOfEarlier(a, b, i + 1, d, prepend);
      assert LineEnd(a + b, i) == LineEnd(a, i);
      Sequences.Regroup(line + LineEnd(a, i), RawFrom(a, i + 1, d, prepend), end);
    }
  }

  /** Printing two lists in a row: a line break in between unless the second begins with an empty key;
      and one entry is its prefix, its key, and each value after a delimiter. */
  lemma RawByEntry(a: seq<Entry>, b: seq<Entry>, e: Entry, d: Byte, prepend: Text)
    requires a != [] && b != []
    ensures RawFrom(a + b, 0, d, prepend)
         == RawFrom(a, 0, d, prepend) + ((if b[0].key == [] then [] else [NEWLINE]) + RawFrom(b, 0, d, prepend))
    ensures RawFrom([e], 0, d, prepend) == prepend + (e.key + Follow(e.values, d))
  {
    RawOfEarlier(a, b, 0, d, prepend);
    assert LineEnd([e], 0) == [] && RawFrom([e], 1, d, prepend) == [];
    assert prepend + Line(e, d) + [] + [] == prepend + Line(e, d);
  }

  // ----- parsing gives good entries -----

  lemma ParseLineIsGood(line: Text, d: Byte)
    requires NEWLINE !in line
    ensures Good(ParseLine(line, d), d)
  {
    TokensAreClean(line, d);
    var tokens := Tokens(line, d, true);
    if |tokens| >= 2 {
      if d == NEWLINE {
        SplitOne(line, d);
      }
      assert tokens[0] in tokens;
      assert forall v :: v in tokens[1..] ==> v in tokens;
    }
  }

  lemma {:induction false} ParseLinesAreGood(lines: seq<Text>, d: Byte)
    requires forall l :: l in lines ==> NEWLINE !in l
    ensures Good(ParseLines(lines, d), d)
  {
    if lines == [] {
    } else {
      ParseLineIsGood(lines[0], d);
      ParseLinesAreGood(lines[1..], d);
    }
  }

  lemma ParseIsGood(s: Text, d: Byte)
    ensures Good(Parsed(s, d), d)
  {
    TokensAreClean(s, NEWLINE);
    ParseLinesAreGood(Tokens(s, NEWLINE, true), d);
  }

  // ----- good entries survive -----

  lemma {:induction false} FollowHas(pieces: seq<Text>, d: Byte, c: Byte)
    requires c != d && forall p :: p in pieces ==> c !in p
    ensures c !in Follow(pieces, d)
  {
    if pieces == [] {
    } else {
      FollowHas(pieces[1..], d, c);
    }
  }

  lemma ParseOfLine(e: Entry, d: Byte)
    requires GoodEntry(e, d) && d != NEWLINE
    ensures ParseLine(Line(e, d), d) == [e]
    ensures Line(e, d) != [] && NEWLINE !in Line(e, d)
  {
    FollowHas(e.values, d, NEWLINE);
    SplitJoined(e.key, e.values, d);
    assert ([e.key] + e.values)[1..] == e.values;
  }

  function Lines(data: seq<Entry>, d: Byte): seq<Text> {
    if data == [] then [] else [Line(data[0], d)] + Lines(data[1..], d)
  }

  lemma {:induction false} ParseOfLines(data: seq<Entry>, d: Byte)
    requires Good(data, d)
    ensures ParseLines(Lines(data, d), d) == data
    ensures forall l :: l in Lines(data, d) ==> l != [] && NEWLINE !in l
    ensures |Lines(data, d)| == |data|
  {
    if data == [] {
    } else {
      assert data[0] in data;
      ParseOfLine(data[0], d);
      ParseOfLines(data[1..], d);
      assert Lines(data, d)[1..] == Lines(data[1..], d);
      assert [data[0]] + data[1..] == data;
    }
  }

  lemma {:induction false} RawIsLines(data: seq<Entry>, i: nat, d: Byte)
    requires Good(data, d) && i < |data|
    ensures RawFrom(data, i, d, []) == Line(data[i], d) + Follow(Lines(data[i + 1..], d), NEWLINE)
    decreases |data| - i
  {
    RawFromUnfolded(data, i, d);
    if i + 1 == |data| {
      assert Lines(data[i + 1..], d) == [];
    } else {
      assert data[i + 1] in data;
      RawIsLines(data, i + 1, d);
      FollowLines(data, i + 1, d);
    }
  }

  lemma RawFromUnfolded(data: seq<Entry>, i: nat, d: Byte)
    requires i < |data|
    ensures RawFrom(data, i, d, []) == Line(data[i], d) + (LineEnd(data, i) + RawFrom(data, i + 1, d, []))
    ensures i + 1 == |data| ==> RawFrom(data, i, d, []) == Line(data[i], d)
  {
    assert [] + Line(data[i], d) == Line(data[i], d);
    Sequences.Regroup(Line(data[i], d), LineEnd(data, i), RawFrom(data, i + 1, d, []));
  }

  lemma FollowLines(data: seq<Entry>, i: nat, d: Byte)
    requires i < |data|
    ensures Follow(Lines(data[i..], d), NEWLINE)
         == [NEWLINE] + (Line(data[i], d) + Follow(Lines(data[i + 1..], d), NEWLINE))
  {
    assert data[i..][1..] == data[i + 1..];
    FollowCons(Line(data[i], d), Lines(data[i + 1..], d), NEWLINE);
    Sequences.Regroup([NEWLINE], Line(data[i], d), Follow(Lines(data[i + 1..], d), NEWLINE));
  }

  lemma ParseOfRaw(data: seq<Entry>, d: Byte)
    requires Good(data, d)
    ensures Parsed(Raw(data, d), d) == data
  {
    if data != [] {
      RawIsLines(data, 0, d);
      ParseOfLines(data, d);
      var lines := Lines(data, d);
      assert lines[1..] == Lines(data[1..], d) && lines[0] == Line(data[0], d);
      SplitJoined(lines[0], lines[1..], NEWLINE);
      assert [lines[0]] + lines[1..] == lines;
      assert lines[0] in lines;
    }
  }

  /** Printing and parsing with one delimiter gives the entries back exactly when all of them have
      a key and a value and no delimiter or line break inside. */
  lemma RoundTrip(data: seq<Entry>, d: Byte)
    ensures Parsed(Raw(data, d), d) == data <==> Good(data, d)
  {
    if Good(data, d) {
      ParseOfRaw(data, d);
    } else {
      ParseIsGood(Raw(data, d), d);
    }
  }

  /** One parse puts any text in a form that printing and parsing again does not change. */
  lemma Normalised(s: Text, d: Byte)
    ensures Parsed(Raw(Parsed(s, d), d), d) == Parsed(s, d)
  {
    ParseIsGood(s, d);
    ParseOfRaw(Parsed(s, d), d);
  }

  // ----- parsing never makes the text longer -----

  /** The length of the pieces with one delimiter for each. */
  function Size(pieces: seq<Text>): nat {
    if pieces == [] then 0 else |pieces[0]| + 1 + Size(pieces[1..])
  }

  lemma {:induction false} FollowSize(pieces: seq<Text>, d: Byte)
    ensures |Follow(pieces, d)| == Size(pieces)
  {
    if pieces == [] {
    } else {
      FollowSize(pieces[1..], d);
    }
  }

  lemma {:induction false} SplitSize(s: Text, d: Byte)
    ensures Size(Split(s, d)) == |s| + 1
  {
    if s == [] {
    } else {
      SplitSize(s[1..], d);
      var rest := Split(s[1..], d);
      assert Split(s, d)[1..] == if s[0] == d then rest else rest[1..];
    }
  }

  lemma {:induction false} DropLeadingEmptySize(pieces: seq<Text>)
    ensures Size(DropLeadingEmpty(pieces)) <= Size(pieces)
  {
    if pieces != [] && pieces[0] == [] {
      DropLeadingEmptySize(pieces[1..]);
    }
  }

  lemma TokensSize(s: Text, d: Byte)
    ensures Size(Tokens(s, d, true)) <= |s| + 1
  {
    SplitSize(s, d);
    DropLeadingEmptySize(Split(s, d));
  }

  lemma {:induction false} ParseLinesSize(lines: seq<Text>, d: Byte)
    ensures Size(Lines(ParseLines(lines, d), d)) <= Size(lines)
  {
    if lines == [] {
    } else {
      ParseLinesSize(lines[1..], d);
      TokensSize(lines[0], d);
      var tokens := Tokens(lines[0], d, true);
      if |tokens| >= 2 {
        var e := Entry(tokens[0], tokens[1..]);
        FollowSize(tokens[1..], d);
        assert ([e] + ParseLines(lines[1..], d))[1..] == ParseLines(lines[1..], d);
      } else {
        assert ParseLines(lines, d) == ParseLines(lines[1..], d);
      }
    }
  }

  /** Printing what was parsed is never longer than what was read. */
  lemma NormalisedIsNoLonger(s: Text, d: Byte)
    ensures |Raw(Parsed(s, d), d)| <= |s|
  {
    var data := Parsed(s, d);
    if data != [] {
      ParseIsGood(s, d);
      RawIsLines(data, 0, d);
      FollowSize(Lines(data[1..], d), NEWLINE);
      TokensSize(s, NEWLINE);
      ParseLinesSize(Tokens(s, NEWLINE, true), d);
    }
  }

  /** A key that is found, with its first two values, takes no more room than the lines. */
  lemma {:induction false} FoundFits(data: seq<Entry>, key: Text, d: Byte)
    ensures Get(data, key, 0) != [] || Get(data, key, 1) != [] ==>
      |key| + |Get(data, key, 0)| + |Get(data, key, 1)| + 1 <= Size(Lines(data, d))
  {
    if data == [] {
    } else {
      FoundFits(data[1..], key, d);
      assert Lines(data, d)[1..] == Lines(data[1..], d);
      var values := data[0].values;
      FollowSize(values, d);
      if |values| >= 2 {
        assert Size(values) == |values[0]| + 1 + (|values[1]| + 1 + Size(values[1..][1..]));
      }
    }
  }

  lemma FoundInText(s: Text, key: Text, d: Byte)
    ensures var data := Parsed(s, d);
      Get(data, key, 0) != [] || Get(data, key, 1) != [] ==> |key| + |Get(data, key, 0)| + |Get(data, key, 1)| <= |s|
  {
    FoundFits(Parsed(s, d), key, d);
    TokensSize(s, NEWLINE);
    ParseLinesSize(Tokens(s, NEWLINE, true), d);
  }

  // ----- the class -----

  class TextParse {
    var data: seq<Entry>

    constructor ()
      ensures data == []
    {
      data := [];
    }

    static method Tokenize(s: Text, d: Byte, keepEmpty: bool) returns (tokens: seq<Text>)
      ensures tokens == Tokens(s, d, keepEmpty)
    {
      tokens := [];
      if s == [] {
        return;
      }
      var pieces := Split(s, d);
      var i := 0;
      while i < |pieces|
        invariant i <= |pieces|
        invariant tokens + Scanned(pieces[i..], tokens != [], keepEmpty) == Scanned(pieces, false, keepEmpty)
      {
        ScanStep(tokens, pieces, i, keepEmpty);
        if pieces[i] != [] || (keepEmpty && tokens != []) {
          tokens := tokens + [pieces[i]];
        }
        i := i + 1;
      }
      ScannedIs(pieces, false);
    }

    method Parse(s: Text, d: Byte)
      modifies this
      ensures data == Parsed(s, d)
    {
      data := [];
      var lines := Tokenize(s, NEWLINE, true);
      var i := 0;
      while i < |lines|
        invariant i <= |lines|
        invariant data + ParseLines(lines[i..], d) == ParseLines(lines, d)
      {
        ParseStep(data, lines, i, d);
        AddLine(lines[i], d);
        i := i + 1;
      }
    }

    method AddLine(line: Text, d: Byte)
      modifies this
      ensures data == old(data) + ParseLine(line, d)
    {
      var tokens := Tokenize(line, d, true);
      if |tokens| >= 2 {
        data := data + [Entry(tokens[0], tokens[1..])];
      }
    }

    method Add(key: Text, values: seq<Text>)
      modifies this
      ensures data == old(data) + [Entry(key, values)]
    {
      data := data + [Entry(key, values)];
    }

    method GetRaw(d: Byte, prepend: Text) returns (raw: Text)
      ensures raw == RawFrom(data, 0, d, prepend)
    {
      raw := [];
      var i := 0;
      while i < |data|
        invariant i <= |data| && raw + RawFrom(data, i, d, prepend) == RawFrom(data, 0, d, prepend)
      {
        RawStep(raw, data, i, d, prepend);
        raw := AppendLine(raw, data[i], d, prepend);
        raw := AppendLineEnd(raw, data, i);
        i := i + 1;
      }
    }

    static method AppendLineEnd(text: Text, data: seq<Entry>, i: nat) returns (raw: Text)
      ensures raw == text + LineEnd(data, i)
    {
      raw := text;
      if i + 1 < |data| && data[i + 1].key != [] {
        raw := raw + [NEWLINE];
      }
    }

    static method AppendLine(text: Text, e: Entry, d: Byte, prepend: Text) returns (raw: Text)
      ensures raw == text + (prepend + Line(e, d))
    {
      raw := text + prepend + e.key;
      var i := 0;
      while i < |e.values|
        invariant i <= |e.values| && raw + Follow(e.values[i..], d) == text + (prepend + Line(e, d))
      {
        FollowStep(raw, e.values, i, d);
        raw := raw + [d] + e.values[i];
        i := i + 1;
      }
    }

    method GetText(key: Text, index: int) returns (value: Text)
      ensures value == Get(data, key, index)
      ensures forall k :: 0 <= k < |data| && data[k].key == key && (forall j :: 0 <= j < k ==> data[j].key != key) ==>
        value == if 0 <= index < |data[k].values| then data[k].values[index] else []
      ensures (forall k :: 0 <= k < |data| ==> data[k].key != key) ==> value == []
    {
      var i := 0;
      while i < |data| && data[i].key != key
        invariant i <= |data| && forall k :: 0 <= k < i ==> data[k].key != key
      {
        i := i + 1;
      }
      if i < |data| {
        GetOfFirst(data, key, i, index);
      } else {
        GetOfNone(data, key, index);
      }
      value := if i < |data| && 0 <= index < |data[i].values| then data[i].values[index] else [];
    }
  }

  /** The pieces that one pass keeps; `started` tells whether there is a token already. */
  function Scanned(pieces: seq<Text>, started: bool, keepEmpty: bool): seq<Text> {
    if pieces == [] then []
    else if pieces[0] != [] || (keepEmpty && started) then [pieces[0]] + Scanned(pieces[1..], true, keepEmpty)
    else Scanned(pieces[1..], started, keepEmpty)
  }

  lemma {:induction false} ScannedIs(pieces: seq<Text>, started: bool)
    ensures Scanned(pieces, started, false) == DropEmpty(pieces)
    ensures Scanned(pieces, started, true) == if started then pieces else DropLeadingEmpty(pieces)
  {
    if pieces == [] {
    } else {
      ScannedIs(pieces[1..], true);
      ScannedIs(pieces[1..], started);
      assert pieces == [pieces[0]] + pieces[1..];
    }
  }

  lemma ScanStep(tokens: seq<Text>, pieces: seq<Text>, i: nat, keepEmpty: bool)
    requires i < |pieces|
    ensures var next := if pieces[i] != [] || (keepEmpty && tokens != []) then tokens + [pieces[i]] else tokens;
      (tokens + Scanned(pieces[i..], tokens != [], keepEmpty) == next + Scanned(pieces[i + 1..], next != [], keepEmpty))
  {
    assert pieces[i..][1..] == pieces[i + 1..];
  }

  lemma ParseStep(before: seq<Entry>, lines: seq<Text>, i: nat, d: Byte)
    requires i < |lines|
    ensures before + ParseLines(lines[i..], d) == before + ParseLine(lines[i], d) + ParseLines(lines[i + 1..], d)
  {
    assert lines[i..][1..] == lines[i + 1..];
  }

  lemma RawStep(raw: Text, data: seq<Entry>, i: nat, d: Byte, prepend: Text)
    requires i < |data|
    ensures raw + RawFrom(data, i, d, prepend)
         == raw + (prepend + Line(data[i], d)) + LineEnd(data, i) + RawFrom(data, i + 1, d, prepend)
  {
    Sequences.RegroupFour(raw, prepend + Line(data[i], d), LineEnd(data, i), RawFrom(data, i + 1, d, prepend));
  }

  lemma FollowStep(raw: Text, values: seq<Text>, i: nat, d: Byte)
    requires i < |values|
    ensures raw + Follow(values[i..], d) == raw + [d] + values[i] + Follow(values[i + 1..], d)
  {
    assert values[i..][1..] == values[i + 1..];
  }
}
