/** JSON quoting of log fields (section 7 of RFC 8259) and the line structure of the log stream. */
module Quoting {
  import opened Text
  import opened Keys

  const QUOTE: Byte := 0x22
  const BACKSLASH: Byte := 0x5c
  const NEWLINE: Byte := 0x0a

  function HexByte(d: nat): (c: Byte)
    requires d < 16
    ensures 0x30 <= c
  {
    if d < 10 then 0x30 + d else 0x61 + d - 10
  }

  function EscapeByte(c: Byte): (r: Bytes)
    ensures forall i | 0 <= i < |r| :: r[i] >= 0x20
  {
    if c == QUOTE then [BACKSLASH, QUOTE]
    else if c == BACKSLASH then [BACKSLASH, BACKSLASH]
    else if c == NEWLINE then [BACKSLASH, 0x6e]
    else if c == 0x0d then [BACKSLASH, 0x72]
    else if c == 0x09 then [BACKSLASH, 0x74]
    else if c < 0x20 then [BACKSLASH, 0x75, 0x30, 0x30, HexByte(c / 16), HexByte(c % 16)]
    else [c]
  }

  function Escape(s: Bytes): Bytes {
    if s == [] then [] else EscapeByte(s[0]) + Escape(s[1..])
  }

  function Quote(s: Bytes): Bytes {
    [QUOTE] + Escape(s) + [QUOTE]
  }

  lemma {:induction false} EscapeSnoc(s: Bytes, c: Byte)
    ensures Escape(s + [c]) == Escape(s) + EscapeByte(c)
  {
    if s == [] {
      assert s + [c] == [c] && [c][1..] == [];
      assert EscapeByte(c) + [] == EscapeByte(c) == [] + EscapeByte(c);
    } else {
      assert (s + [c])[1..] == s[1..] + [c];
      EscapeSnoc(s[1..], c);
      assert EscapeByte(s[0]) + (Escape(s[1..]) + EscapeByte(c)) == Escape(s) + EscapeByte(c);
    }
  }

  method AppendEscaped(b: Bytes, c: Byte) returns (r: Bytes)
    ensures r == b + EscapeByte(c)
  {
    if c == QUOTE {
      return b + [BACKSLASH, QUOTE];
    } else if c == BACKSLASH {
      return b + [BACKSLASH, BACKSLASH];
    } else if c == NEWLINE {
      return b + [BACKSLASH, 0x6e];
    } else if c == 0x0d {
      return b + [BACKSLASH, 0x72];
    } else if c == 0x09 {
      return b + [BACKSLASH, 0x74];
    } else if c < 0x20 {
      return b + [BACKSLASH, 0x75, 0x30, 0x30, HexByte(c / 16), HexByte(c % 16)];
    } else {
      return b + [c];
    }
  }

  method AppendQuoted(b: Bytes, s: Bytes) returns (r: Bytes)
    ensures r == b + Quote(s)
  {
    r := b + [QUOTE];
    ghost var start := r;
    assert s[..0] == [] && start + [] == start;
    for i := 0 to |s|
      invariant r == start + Escape(s[..i])
    {
      assert s[..i + 1] == s[..i] + [s[i]];
      EscapeSnoc(s[..i], s[i]);
      assert start + (Escape(s[..i]) + EscapeByte(s[i])) == start + Escape(s[..i]) + EscapeByte(s[i]);
      r := AppendEscaped(r, s[i]);
    }
    assert s[..|s|] == s;
    r := r + [QUOTE];
    assert r == b + Quote(s);
  }

  // ---- Reading a JSON string ----------------------------------------------

  function HexValue(c: Byte): Option<nat> {
    if 0x30 <= c <= 0x39 then Some(c - 0x30)
    else if 0x61 <= c <= 0x66 then Some(c - 0x61 + 10)
    else if 0x41 <= c <= 0x46 then Some(c - 0x41 + 10)
    else None
  }

  function Hex4(a: Byte, b: Byte, c: Byte, d: Byte): Option<nat> {
    match (HexValue(a), HexValue(b), HexValue(c), HexValue(d))
    case (Some(w), Some(x), Some(y), Some(z)) => Some(((w * 16 + x) * 16 + y) * 16 + z)
    case _ => None
  }

  /** The two-character escapes of the JSON grammar. */
  function ShortEscape(c: Byte): Option<Byte> {
    if c == QUOTE || c == BACKSLASH || c == 0x2f then Some(c)
    else if c == 0x62 then Some(0x08)
    else if c == 0x66 then Some(0x0c)
    else if c == 0x6e then Some(0x0a)
    else if c == 0x72 then Some(0x0d)
    else if c == 0x74 then Some(0x09)
    else None
  }

  datatype Parsed = Parsed(text: Bytes, rest: Bytes)

  function Prepend(c: Byte, r: Option<Parsed>): Option<Parsed> {
    match r
    case None => None
    case Some(p) => Some(Parsed([c] + p.text, p.rest))
  }

  /** Reads up to the first unescaped quote; raw control bytes are refused, as are escapes beyond ASCII. */
  function ReadChars(t: Bytes): Option<Parsed>
    decreases |t|
  {
    if t == [] || t[0] < 0x20 then None
    else if t[0] == QUOTE then Some(Parsed([], t[1..]))
    else if t[0] != BACKSLASH then Prepend(t[0], ReadChars(t[1..]))
    else if |t| >= 2 && ShortEscape(t[1]).Some? then Prepend(ShortEscape(t[1]).value, ReadChars(t[2..]))
    else if |t| >= 6 && t[1] == 0x75 then
      var v := Hex4(t[2], t[3], t[4], t[5]);
      if v.Some? && v.value < 0x80 then Prepend(v.value, ReadChars(t[6..])) else None
    else None
  }

  function ReadString(t: Bytes): Option<Parsed> {
    if t != [] && t[0] == QUOTE then ReadChars(t[1..]) else None
  }

  lemma {:induction false} ReadEscaped(c: Byte, t: Bytes)
    ensures ReadChars(EscapeByte(c) + t) == Prepend(c, ReadChars(t))
  {
  }

  lemma {:induction false} ReadEscape(s: Bytes, rest: Bytes)
    ensures ReadChars(Escape(s) + [QUOTE] + rest) == Some(Parsed(s, rest))
  {
    if s == [] {
      assert Escape(s) + [QUOTE] + rest == [QUOTE] + rest;
      assert ([QUOTE] + rest)[1..] == rest;
    } else {
      var t := Escape(s[1..]) + [QUOTE] + rest;
      ReadEscape(s[1..], rest);
      assert Escape(s) + [QUOTE] + rest == EscapeByte(s[0]) + t;
      ReadEscaped(s[0], t);
      assert s == [s[0]] + s[1..];
    }
  }

  /** A reader recovers every byte string and stops right after it: the last byte is the first unescaped quote. */
  lemma {:induction false} QuoteRoundTrip(s: Bytes, rest: Bytes)
    ensures ReadString(Quote(s) + rest) == Some(Parsed(s, rest))
  {
    ReadEscape(s, rest);
    assert (Quote(s) + rest)[1..] == Escape(s) + [QUOTE] + rest;
  }

  lemma {:induction false} EscapePrintable(s: Bytes)
    ensures forall i | 0 <= i < |Escape(s)| :: Escape(s)[i] >= 0x20
  {
    if s != [] {
      EscapePrintable(s[1..]);
    }
  }

  // ---- Lines --------------------------------------------------------------

  /** A JSON log line is fixed text, printable by construction, and quoted fields. */
  datatype Piece = Plain(text: Bytes) | Quoted(field: Bytes)

  ghost predicate Printable(b: Bytes) {
    forall i | 0 <= i < |b| :: b[i] >= 0x20
  }

  ghost predicate PlainPrintable(pieces: seq<Piece>) {
    forall i | 0 <= i < |pieces| && pieces[i].Plain? :: Printable(pieces[i].text)
  }

  function Body(pieces: seq<Piece>): Bytes {
    if pieces == [] then []
    else (match pieces[0] case Plain(b) => b case Quoted(f) => Quote(f)) + Body(pieces[1..])
  }

  function Stream(lines: seq<seq<Piece>>): Bytes {
    if lines == [] then [] else Body(lines[0]) + [NEWLINE] + Stream(lines[1..])
  }

  function Bodies(lines: seq<seq<Piece>>): seq<Bytes> {
    if lines == [] then [[]] else [Body(lines[0])] + Bodies(lines[1..])
  }

  lemma {:induction false} BodyPrintable(pieces: seq<Piece>)
    requires PlainPrintable(pieces)
    ensures Printable(Body(pieces))
  {
    if pieces != [] {
      BodyPrintable(pieces[1..]);
      match pieces[0]
      case Plain(b) => assert Printable(b);
      case Quoted(f) => EscapePrintable(f);
    }
  }

  /** Whatever the fields contain, splitting the stream at newlines gives back exactly the lines. */
  lemma {:induction false} StreamSplits(lines: seq<seq<Piece>>)
    requires forall i | 0 <= i < |lines| :: PlainPrintable(lines[i])
    ensures Split(Stream(lines), NEWLINE) == Bodies(lines)
  {
    if lines != [] {
      StreamSplits(lines[1..]);
      BodyPrintable(lines[0]);
      assert NEWLINE !in Body(lines[0]);
      SplitField(Body(lines[0]), Stream(lines[1..]), NEWLINE);
    }
  }
}
