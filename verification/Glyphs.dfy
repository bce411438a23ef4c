// The byte-wise conversion of UTF-8 text to positions in the font table.
module Glyphs {
  import opened Basics

  type CodePoint = c: int | 0 <= c < 0x11_0000

  const UNKNOWN: byte := 191

  // The two static variables: the last byte, and whether a run of unknown characters was marked.
  datatype Decoder = Decoder(last: byte, skip: bool)

  function Glyph(d: Decoder, ch: byte): byte {
    if ch < 128 then ch
    else if d.last == 0xC2 then ch
    else if d.last == 0xC3 then 0xC0 + ch % 64
    else if ch == 0xC2 || ch == 0xC3 || d.skip then 0
    else UNKNOWN
  }

  function Next(d: Decoder, ch: byte): Decoder {
    if ch < 128 then Decoder(0, false)
    else if d.last == 0xC2 || d.last == 0xC3 then Decoder(ch, false)
    else if ch == 0xC2 || ch == 0xC3 then Decoder(ch, d.skip)
    else Decoder(ch, true)
  }

  // The glyphs drawn for a string of bytes; position zero draws nothing.
  function Drawn(d: Decoder, bytes: seq<byte>): seq<byte>
    decreases |bytes|
  {
    if |bytes| == 0 then []
    else (if Glyph(d, bytes[0]) == 0 then [] else [Glyph(d, bytes[0])]) + Drawn(Next(d, bytes[0]), bytes[1..])
  }

  class FontTable {
    var lastChar: byte
    var skipRest: bool

    function State(): Decoder
      reads this
    {
      Decoder(lastChar, skipRest)
    }

    constructor ()
      ensures State() == Decoder(0, false)
    {
      lastChar, skipRest := 0, false;
    }

    method Lookup(ch: byte) returns (glyph: byte)
      modifies this
      ensures glyph == Glyph(old(State()), ch) && State() == Next(old(State()), ch)
    {
      if ch < 128 {
        lastChar := 0;
        skipRest := false;
        return ch;
      }
      var last := lastChar;
      lastChar := ch;
      if last == 0xC2 {
        skipRest := false;
        return ch;
      }
      if last == 0xC3 {
        skipRest := false;
        return 0xC0 + ch % 64;
      }
      if ch == 0xC2 || ch == 0xC3 {
        return 0;
      }
      if skipRest {
        return 0;
      }
      skipRest := true;
      return UNKNOWN;
    }
  }

  // ---- UTF-8 ------------------------------------------------------------------------------------

  // Section 3 of RFC 3629.
  function Encoded(c: CodePoint): (bytes: seq<byte>) {
    if c < 0x80 then [c]
    else if c < 0x800 then [0xC0 + c / 64, 0x80 + c % 64]
    else if c < 0x1_0000 then [0xE0 + c / 4096, 0x80 + c / 64 % 64, 0x80 + c % 64]
    else [0xF0 + c / 0x4_0000, 0x80 + c / 4096 % 64, 0x80 + c / 64 % 64, 0x80 + c % 64]
  }

  function Utf8(text: seq<CodePoint>): seq<byte> {
    if |text| == 0 then [] else Encoded(text[0]) + Utf8(text[1..])
  }

  // What the reader should see: Latin-1 characters as they are, and one mark for each run of others.
  function Readable(text: seq<CodePoint>, marked: bool): seq<byte> {
    if |text| == 0 then []
    else if text[0] == 0 then Readable(text[1..], false)
    else if text[0] < 0x100 then [text[0]] + Readable(text[1..], false)
    else (if marked then [] else [UNKNOWN]) + Readable(text[1..], true)
  }

  predicate BetweenCharacters(d: Decoder) {
    d.last != 0xC2 && d.last != 0xC3
  }

  lemma DrawnStep(d: Decoder, b: byte, rest: seq<byte>)
    ensures Drawn(d, [b] + rest) == (if Glyph(d, b) == 0 then [] else [Glyph(d, b)]) + Drawn(Next(d, b), rest)
  {
    assert ([b] + rest)[1..] == rest;
  }

  // The continuation bytes of a character that has been marked draw nothing.
  lemma {:induction false} SkippedBytes(d: Decoder, tail: seq<byte>, rest: seq<byte>) returns (e: Decoder)
    requires BetweenCharacters(d) && d.skip
    requires forall k | 0 <= k < |tail| :: 0x80 <= tail[k] < 0xC0
    ensures BetweenCharacters(e) && e.skip && Drawn(d, tail + rest) == Drawn(e, rest)
    decreases |tail|
  {
    if |tail| == 0 {
      assert tail + rest == rest;
      e := d;
    } else {
      assert tail + rest == [tail[0]] + (tail[1..] + rest);
      DrawnStep(d, tail[0], tail[1..] + rest);
      e := SkippedBytes(Next(d, tail[0]), tail[1..], rest);
    }
  }

  lemma OtherCharacter(d: Decoder, bytes: seq<byte>, rest: seq<byte>) returns (e: Decoder)
    requires BetweenCharacters(d) && |bytes| > 0 && bytes[0] > 0xC3
    requires forall k | 1 <= k < |bytes| :: 0x80 <= bytes[k] < 0xC0
    ensures BetweenCharacters(e) && e.skip
    ensures Drawn(d, bytes + rest) == (if d.skip then [] else [UNKNOWN]) + Drawn(e, rest)
  {
    assert bytes + rest == [bytes[0]] + (bytes[1..] + rest);
    DrawnStep(d, bytes[0], bytes[1..] + rest);
    e := SkippedBytes(Next(d, bytes[0]), bytes[1..], rest);
  }

  lemma LatinCharacter(d: Decoder, c: CodePoint, rest: seq<byte>) returns (e: Decoder)
    requires BetweenCharacters(d) && c < 0x100
    ensures BetweenCharacters(e) && !e.skip
    ensures Drawn(d, Encoded(c) + rest) == (if c == 0 then [] else [c]) + Drawn(e, rest)
  {
    var bytes := Encoded(c);
    if c < 0x80 {
      DrawnStep(d, c, rest);
      e := Next(d, c);
    } else {
      assert bytes + rest == [bytes[0]] + ([bytes[1]] + rest);
      DrawnStep(d, bytes[0], [bytes[1]] + rest);
      DrawnStep(Next(d, bytes[0]), bytes[1], rest);
      e := Next(Next(d, bytes[0]), bytes[1]);
    }
  }

  lemma OneCharacter(d: Decoder, c: CodePoint, rest: seq<byte>) returns (e: Decoder)
    requires BetweenCharacters(d)
    ensures BetweenCharacters(e) && (e.skip <==> c >= 0x100)
    ensures Drawn(d, Encoded(c) + rest) ==
            (if c == 0 then [] else if c < 0x100 then [c] else if d.skip then [] else [UNKNOWN]) + Drawn(e, rest)
  {
    if c < 0x100 {
      e := LatinCharacter(d, c, rest);
    } else {
      e := OtherCharacter(d, Encoded(c), rest);
    }
  }

  lemma {:induction false} TextIsReadable(d: Decoder, text: seq<CodePoint>)
    requires BetweenCharacters(d)
    ensures Drawn(d, Utf8(text)) == Readable(text, d.skip)
    decreases |text|
  {
    if |text| > 0 {
      var e := OneCharacter(d, text[0], Utf8(text[1..]));
      TextIsReadable(e, text[1..]);
    }
  }
}
