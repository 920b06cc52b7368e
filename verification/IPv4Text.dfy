/** IPv4 text: the service's own parser and printer, and Go's strict parser. */
module IPv4Text {
  import opened Text

  type U32 = n: int | 0 <= n < 0x1_0000_0000

  /** A field the parser accepts: digits only, at most 255; empty and zero-padded fields pass. */
  predicate LenientField(f: string) {
    AllDigits(f) && Value(f) <= 255
  }

  predicate Lenient(fields: seq<string>) {
    forall i | 0 <= i < |fields| :: LenientField(fields[i])
  }

  predicate LenientQuad(s: string) {
    |Split(s, '.')| == 4 && Lenient(Split(s, '.'))
  }

  /** Big-endian base-256 value of a list of fields. */
  function Base256(fields: seq<string>): nat
    requires Lenient(fields)
  {
    if fields == [] then 0
    else
      assert LenientField(fields[|fields| - 1]);
      Base256(fields[..|fields| - 1]) * 256 + Value(fields[|fields| - 1])
  }

  function Pow256(k: nat): nat {
    if k == 0 then 1 else 256 * Pow256(k - 1)
  }

  lemma {:induction false} Base256Bound(fields: seq<string>)
    requires Lenient(fields)
    ensures Base256(fields) < Pow256(|fields|)
  {
    if fields != [] {
      assert LenientField(fields[|fields| - 1]);
      Base256Bound(fields[..|fields| - 1]);
    }
  }

  lemma {:induction false} Base256Snoc(fields: seq<string>, f: string)
    requires Lenient(fields) && LenientField(f)
    ensures Lenient(fields + [f])
    ensures Base256(fields + [f]) == Base256(fields) * 256 + Value(f)
  {
  }

  /** The value of a field list: its base-256 value when it is a lenient quad, else 0. */
  function FieldsValue(f: seq<string>): U32 {
    if |f| == 4 && Lenient(f) then
      Base256Bound(f);
      assert Pow256(4) == 0x1_0000_0000;
      Base256(f)
    else 0
  }

  /** What the parser returns: the base-256 value of a lenient dotted quad, 0 for any other text. */
  function Parse(s: string): U32 {
    FieldsValue(Split(s, '.'))
  }

  /** `result<<8 | octet` on uint32: the shift drops high bits, and the low byte it clears takes the octet. */
  function ShiftIn(result: U32, octet: nat): U32
    requires octet < 256
  {
    result * 256 % 0x1_0000_0000 + octet
  }

  /** The parser's loop from one character on, with its three accumulators. */
  function Scan(s: string, result: U32, octet: U32, dots: nat): U32
    requires octet <= 255
  {
    if s == [] then
      if dots != 3 then 0 else ShiftIn(result, octet)
    else if IsDigit(s[0]) then
      var next := octet * 10 + (s[0] as int - '0' as int);
      if next > 255 then 0 else Scan(s[1..], result, next, dots)
    else if s[0] == '.' then
      if dots == 3 then 0 else Scan(s[1..], ShiftIn(result, octet), 0, dots + 1)
    else 0
  }

  method IPv4StrToUint32(s: string) returns (n: U32)
    ensures n == Parse(s)
  {
    var result: U32, octet: U32, dots := 0, 0, 0;
    var i := 0;
    assert s[0..] == s;
    while i < |s|
      invariant 0 <= i <= |s|
      invariant octet <= 255
      invariant Scan(s[i..], result, octet, dots) == Scan(s, 0, 0, 0)
    {
      ScanIsParse(s);
      var c := s[i];
      assert s[i..][1..] == s[i + 1..];
      if '0' <= c <= '9' {
        assert octet * 10 + 9 < 0x1_0000_0000;
        octet := octet * 10 + (c as int - '0' as int);
        if octet > 255 {
          return 0;
        }
      } else if c == '.' {
        if dots == 3 {
          return 0;
        }
        result := ShiftIn(result, octet);
        octet := 0;
        dots := dots + 1;
      } else {
        return 0;
      }
      i := i + 1;
    }
    ScanIsParse(s);
    if dots != 3 {
      return 0;
    }
    n := ShiftIn(result, octet);
  }

  lemma {:induction false} ScanIsParse(s: string)
    ensures Scan(s, 0, 0, 0) == Parse(s)
  {
    ScanFields([], [], s);
    assert [] + Split([] + s, '.') == Split(s, '.') by { assert [] + s == s; }
  }

  /** With `done` the fields left of the last dot and `cur` the digits since, the loop finishes the field list. */
  lemma {:induction false} ScanFields(done: seq<string>, cur: string, rest: string)
    requires |done| <= 3 && Lenient(done) && LenientField(cur)
    ensures Base256(done) < 0x100_0000
    ensures Scan(rest, Base256(done), Value(cur), |done|) == FieldsValue(done + Split(cur + rest, '.'))
    decreases |rest|, 0
  {
    NoOverflow(done);
    if rest == [] {
      ScanEnd(done, cur);
      assert cur + rest == cur;
    } else {
      var c, tail := rest[0], rest[1..];
      assert cur + rest == cur + [c] + tail;
      if IsDigit(c) {
        ScanDigit(done, cur, c, tail);
      } else if c == '.' {
        ScanDot(done, cur, tail);
      } else {
        FieldGarbage(done, cur, c, tail);
      }
    }
  }

  lemma {:induction false} ScanEnd(done: seq<string>, cur: string)
    requires |done| <= 3 && Lenient(done) && LenientField(cur)
    ensures Base256(done) < 0x100_0000
    ensures FieldsValue(done + Split(cur, '.')) == if |done| != 3 then 0 else ShiftIn(Base256(done), Value(cur))
  {
    NoOverflow(done);
    SplitOne(cur, '.');
    Base256Snoc(done, cur);
  }

  lemma {:induction false} ScanDigit(done: seq<string>, cur: string, c: char, tail: string)
    requires |done| <= 3 && Lenient(done) && LenientField(cur) && IsDigit(c)
    ensures Base256(done) < 0x100_0000
    ensures var next := Value(cur) * 10 + (c as int - '0' as int);
            FieldsValue(done + Split(cur + [c] + tail, '.'))
            == if next > 255 then 0 else Scan(tail, Base256(done), next, |done|)
    decreases |tail|, 1
  {
    NoOverflow(done);
    assert (cur + [c])[..|cur|] == cur;
    if Value(cur + [c]) > 255 {
      FieldTooBig(done, cur + [c], tail);
    } else {
      ScanFields(done, cur + [c], tail);
    }
  }

  lemma {:induction false} ScanDot(done: seq<string>, cur: string, tail: string)
    requires |done| <= 3 && Lenient(done) && LenientField(cur)
    ensures Base256(done) < 0x100_0000
    ensures FieldsValue(done + Split(cur + ['.'] + tail, '.'))
            == if |done| == 3 then 0 else Scan(tail, ShiftIn(Base256(done), Value(cur)), 0, |done| + 1)
    decreases |tail|, 1
  {
    NoOverflow(done);
    NextField(done, cur, tail);
    Base256Snoc(done, cur);
    if |done| < 3 {
      var more := done + [cur];
      ScanFields(more, [], tail);
      assert Base256(more) == ShiftIn(Base256(done), Value(cur));
    }
  }

  lemma {:induction false} NextField(done: seq<string>, cur: string, tail: string)
    requires '.' !in cur
    ensures done + Split(cur + ['.'] + tail, '.') == (done + [cur]) + Split([] + tail, '.')
  {
    SplitField(cur, tail, '.');
    assert [] + tail == tail;
    assert done + ([cur] + Split(tail, '.')) == (done + [cur]) + Split(tail, '.');
  }

  lemma {:induction false} NoOverflow(done: seq<string>)
    requires |done| <= 3 && Lenient(done)
    ensures Base256(done) < 0x100_0000
  {
    Base256Bound(done);
    assert Pow256(0) == 1 && Pow256(1) == 256 && Pow256(2) == 65536 && Pow256(3) == 16777216;
  }

  lemma {:induction false} FieldGarbage(done: seq<string>, cur: string, c: char, rest: string)
    requires AllDigits(cur) && !IsDigit(c) && c != '.'
    ensures !Lenient(done + Split(cur + [c] + rest, '.'))
  {
    SplitPrefix(cur + [c], rest, '.');
    var f := (done + Split(cur + [c] + rest, '.'))[|done|];
    assert f[|cur|] == c;
    assert !LenientField(f);
  }

  lemma {:induction false} FieldTooBig(done: seq<string>, cur: string, rest: string)
    requires AllDigits(cur) && Value(cur) > 255
    ensures !Lenient(done + Split(cur + rest, '.'))
  {
    SplitPrefix(cur, rest, '.');
    var tail := Split(rest, '.')[0];
    var f := (done + Split(cur + rest, '.'))[|done|];
    assert f == cur + tail;
    if AllDigits(f) {
      ValueGrows(cur, tail);
    }
    assert !LenientField(f);
  }

  // ---- Printing -----------------------------------------------------------

  function Octet(n: U32, i: nat): (o: nat)
    requires i < 4
    ensures o < 256
  {
    if i == 0 then n / 0x100_0000
    else if i == 1 then n / 0x1_0000 % 256
    else if i == 2 then n / 0x100 % 256
    else n % 256
  }

  /** The four decimal octets of an address, most significant first. */
  function OctetTexts(n: U32): (p: seq<string>)
    ensures |p| == 4
  {
    [Decimal(Octet(n, 0)), Decimal(Octet(n, 1)), Decimal(Octet(n, 2)), Decimal(Octet(n, 3))]
  }

  function Dotted(n: U32): string {
    Join(OctetTexts(n), '.')
  }

  lemma {:induction false} DecimalOctet(v: nat)
    requires v < 256
    ensures Decimal(v) ==
            if v >= 100 then [Digit(v / 100), Digit(v / 10 % 10), Digit(v % 10)]
            else if v >= 10 then [Digit(v / 10), Digit(v % 10)]
            else [Digit(v)]
  {
    assert v >= 100 ==> v / 10 >= 10 && v / 10 / 10 == v / 100;
    assert v >= 100 ==> Decimal(v / 10) == Decimal(v / 100) + [Digit(v / 10 % 10)];
  }

  method AppendUint8(dst: array<char>, at: nat, v: nat) returns (k: nat)
    requires v < 256
    requires at + |Decimal(v)| <= dst.Length
    modifies dst
    ensures k == |Decimal(v)|
    ensures dst[..at + k] == old(dst[..at]) + Decimal(v)
  {
    DecimalOctet(v);
    if v >= 100 {
      dst[at] := Digit(v / 100);
      dst[at + 1] := Digit(v / 10 % 10);
      dst[at + 2] := Digit(v % 10);
      return 3;
    }
    if v >= 10 {
      dst[at] := Digit(v / 10);
      dst[at + 1] := Digit(v % 10);
      return 2;
    }
    dst[at] := Digit(v);
    return 1;
  }

  /** One octet and the dot after it. */
  method AppendOctetDot(buf: array<char>, at: nat, v: nat) returns (pos: nat)
    requires v < 256 && at + |Decimal(v)| < buf.Length
    modifies buf
    ensures pos == at + |Decimal(v)| + 1
    ensures buf[..pos] == old(buf[..at]) + Decimal(v) + "."
  {
    var k := AppendUint8(buf, at, v);
    pos := at + k;
    buf[pos] := '.';
    pos := pos + 1;
  }

  method Uint32ToIPv4Str(n: U32) returns (s: string)
    ensures s == Dotted(n)
  {
    var buf := new char[15];
    forall i | 0 <= i < 4 ensures |Decimal(Octet(n, i))| <= 3 { DecimalOctet(Octet(n, i)); }
    ghost var p := OctetTexts(n);
    var pos := AppendOctetDot(buf, 0, Octet(n, 0));
    assert buf[..pos] == p[0] + ".";
    pos := AppendOctetDot(buf, pos, Octet(n, 1));
    pos := AppendOctetDot(buf, pos, Octet(n, 2));
    var k := AppendUint8(buf, pos, Octet(n, 3));
    s := buf[..pos + k];
    JoinFour(p[0], p[1], p[2], p[3], '.');
  }

  lemma {:induction false} JoinFour<T>(a: seq<T>, b: seq<T>, c: seq<T>, d: seq<T>, sep: T)
    ensures Join([a, b, c, d], sep) == a + [sep] + b + [sep] + c + [sep] + d
  {
    assert [a, b, c, d][1..] == [b, c, d] && [b, c, d][1..] == [c, d] && [c, d][1..] == [d];
    assert Join([c, d], sep) == c + [sep] + d;
    assert Join([b, c, d], sep) == b + [sep] + (c + [sep] + d);
  }

  // ---- Round trips --------------------------------------------------------

  lemma {:induction false} OctetsValue(n: U32)
    ensures ((Octet(n, 0) * 256 + Octet(n, 1)) * 256 + Octet(n, 2)) * 256 + Octet(n, 3) == n
  {
    assert n / 0x1_0000 / 256 == n / 0x100_0000 && n / 0x100 / 256 == n / 0x1_0000;
  }

  lemma {:induction false} Base256Four(f: seq<string>)
    requires |f| == 4 && Lenient(f)
    ensures Base256(f) == ((Value(f[0]) * 256 + Value(f[1])) * 256 + Value(f[2])) * 256 + Value(f[3])
  {
    assert f == [] + [f[0]] + [f[1]] + [f[2]] + [f[3]];
    Base256Snoc([], f[0]);
    Base256Snoc([] + [f[0]], f[1]);
    Base256Snoc([] + [f[0]] + [f[1]], f[2]);
    Base256Snoc([] + [f[0]] + [f[1]] + [f[2]], f[3]);
  }

  lemma {:induction false} OctetText(n: U32, i: nat)
    requires i < 4
    ensures IsDecimal(OctetTexts(n)[i]) && LenientField(OctetTexts(n)[i])
    ensures Value(OctetTexts(n)[i]) == Octet(n, i)
    ensures '.' !in OctetTexts(n)[i] && '/' !in OctetTexts(n)[i]
  {
    DecimalRoundTrip(Octet(n, i));
  }

  lemma {:induction false} SplitDotted(n: U32)
    ensures Split(Dotted(n), '.') == OctetTexts(n)
  {
    forall i | 0 <= i < 4 ensures '.' !in OctetTexts(n)[i] { OctetText(n, i); }
    SplitJoin(OctetTexts(n), '.');
  }

  /** Parsing inverts printing for every address. */
  lemma {:induction false} ParseDotted(n: U32)
    ensures LenientQuad(Dotted(n)) && Parse(Dotted(n)) == n
  {
    SplitDotted(n);
    forall i | 0 <= i < 4
      ensures LenientField(OctetTexts(n)[i]) && Value(OctetTexts(n)[i]) == Octet(n, i)
    {
      OctetText(n, i);
    }
    Base256Four(OctetTexts(n));
    OctetsValue(n);
  }

  /** Go's `net.ParseIP` on text whose first separator is a dot: four decimal fields up to 255. */
  predicate DottedQuad(s: string) {
    var f := Split(s, '.');
    |f| == 4 && forall i | 0 <= i < 4 :: IsDecimal(f[i]) && Value(f[i]) <= 255
  }

  lemma {:induction false} OctetsOfBase256(a: nat, b: nat, c: nat, d: nat)
    requires a < 256 && b < 256 && c < 256 && d < 256
    ensures var n := ((a * 256 + b) * 256 + c) * 256 + d;
            n < 0x1_0000_0000 && Octet(n, 0) == a && Octet(n, 1) == b && Octet(n, 2) == c && Octet(n, 3) == d
  {
    var n := ((a * 256 + b) * 256 + c) * 256 + d;
    assert n / 0x100 == (a * 256 + b) * 256 + c;
    assert n / 0x1_0000 == a * 256 + b;
    assert n / 0x100_0000 == a;
  }

  /** Printing inverts parsing exactly on the strict dotted quads. */
  lemma {:induction false} DottedParse(s: string)
    ensures DottedQuad(s) <==> Dotted(Parse(s)) == s
  {
    if DottedQuad(s) {
      var f := Split(s, '.');
      Base256Four(f);
      OctetsOfBase256(Value(f[0]), Value(f[1]), Value(f[2]), Value(f[3]));
      forall i | 0 <= i < 4 ensures OctetTexts(Parse(s))[i] == f[i] { ValueRoundTrip(f[i]); }
      assert OctetTexts(Parse(s)) == f;
      JoinSplit(s, '.');
    } else if Dotted(Parse(s)) == s {
      var n := Parse(s);
      SplitDotted(n);
      forall i | 0 <= i < 4 ensures IsDecimal(OctetTexts(n)[i]) && Value(OctetTexts(n)[i]) <= 255 {
        OctetText(n, i);
      }
      assert false;
    }
  }

  /** The texts Go accepts are exactly the printed addresses, each for one address. */
  lemma {:induction false} DottedIsQuad(n: U32)
    ensures DottedQuad(Dotted(n))
  {
    ParseDotted(n);
    DottedParse(Dotted(n));
  }

  lemma {:induction false} DottedInjective(m: U32, n: U32)
    requires Dotted(m) == Dotted(n)
    ensures m == n
  {
    ParseDotted(m);
    ParseDotted(n);
  }

  /** Dotted text is digits and dots only. */
  lemma {:induction false} JoinChars(parts: seq<string>)
    requires forall i | 0 <= i < |parts| :: AllDigits(parts[i])
    ensures forall c | c in Join(parts, '.') :: IsDigit(c) || c == '.'
  {
    if |parts| > 1 {
      JoinChars(parts[1..]);
    }
  }

  lemma {:induction false} DottedChars(n: U32)
    ensures forall c | c in Dotted(n) :: IsDigit(c) || c == '.'
  {
    forall i | 0 <= i < 4 ensures AllDigits(OctetTexts(n)[i]) { OctetText(n, i); }
    JoinChars(OctetTexts(n));
  }
}
