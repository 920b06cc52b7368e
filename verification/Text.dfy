/** The parts of Go's `strings` and `fmt` packages that the service relies on, on sequences. */
module Text {

  datatype Option<+T> = None | Some(value: T)

  predicate HasPrefix<T(==)>(s: seq<T>, p: seq<T>) {
    p <= s
  }

  predicate HasSuffix<T(==)>(s: seq<T>, e: seq<T>) {
    |e| <= |s| && s[|s| - |e|..] == e
  }

  /** `strings.TrimSuffix` */
  function TrimSuffix<T(==)>(s: seq<T>, e: seq<T>): seq<T> {
    if HasSuffix(s, e) then s[..|s| - |e|] else s
  }

  /** `strings.ReplaceAll` for two one-byte strings. */
  function Replace<T(==)>(s: seq<T>, from: T, to: T): (r: seq<T>)
    ensures |r| == |s|
    ensures forall i | 0 <= i < |s| :: r[i] == if s[i] == from then to else s[i]
  {
    seq(|s|, i requires 0 <= i < |s| => if s[i] == from then to else s[i])
  }

  /** `strings.Split` for a one-byte separator. */
  function Split<T(==)>(s: seq<T>, sep: T): (parts: seq<seq<T>>)
    ensures |parts| >= 1
    ensures forall i | 0 <= i < |parts| :: sep !in parts[i]
  {
    if s == [] then [[]]
    else
      var rest := Split(s[1..], sep);
      if s[0] == sep then [[]] + rest else [[s[0]] + rest[0]] + rest[1..]
  }

  /** `strings.Join` for a one-byte separator. */
  function Join<T>(parts: seq<seq<T>>, sep: T): seq<T> {
    if |parts| == 0 then []
    else if |parts| == 1 then parts[0]
    else parts[0] + [sep] + Join(parts[1..], sep)
  }

  /** `strings.Join` for the empty separator. */
  function Concat<T>(parts: seq<seq<T>>): seq<T> {
    if |parts| == 0 then [] else parts[0] + Concat(parts[1..])
  }

  /** A separator-free prefix belongs to the first field. */
  lemma {:induction false} SplitPrefix<T>(f: seq<T>, rest: seq<T>, sep: T)
    requires sep !in f
    ensures Split(f + rest, sep) == [f + Split(rest, sep)[0]] + Split(rest, sep)[1..]
  {
    if f == [] {
      assert f + rest == rest;
      assert f + Split(rest, sep)[0] == Split(rest, sep)[0];
    } else {
      assert (f + rest)[1..] == f[1..] + rest;
      SplitPrefix(f[1..], rest, sep);
      assert [f[0]] + (f[1..] + Split(rest, sep)[0]) == f + Split(rest, sep)[0];
    }
  }

  /** A field followed by a separator is split off whole. */
  lemma {:induction false} SplitField<T>(f: seq<T>, rest: seq<T>, sep: T)
    requires sep !in f
    ensures Split(f + [sep] + rest, sep) == [f] + Split(rest, sep)
  {
    SplitPrefix(f, [sep] + rest, sep);
    assert f + [sep] + rest == f + ([sep] + rest);
    assert ([sep] + rest)[1..] == rest;
    assert f + [] == f;
  }

  /** Text without the separator is one field. */
  lemma {:induction false} SplitOne<T>(f: seq<T>, sep: T)
    requires sep !in f
    ensures Split(f, sep) == [f]
  {
    SplitPrefix(f, [], sep);
    assert f + [] == f;
  }

  lemma {:induction false} FirstSeparator<T>(a: seq<T>, sep: T) returns (i: nat)
    requires sep in a
    ensures i < |a| && a[i] == sep && sep !in a[..i]
  {
    if a[0] == sep {
      i := 0;
    } else {
      i := FirstSeparator(a[1..], sep);
      assert a[..i + 1] == [a[0]] + a[1..][..i];
      i := i + 1;
    }
  }

  /** A separator splits the text into the fields left of it and the fields right of it. */
  lemma {:induction false} SplitConcat<T>(a: seq<T>, b: seq<T>, sep: T)
    ensures Split(a + [sep] + b, sep) == Split(a, sep) + Split(b, sep)
    decreases |a|
  {
    if sep !in a {
      SplitField(a, b, sep);
      SplitOne(a, sep);
    } else {
      var i := FirstSeparator(a, sep);
      var f, rest := a[..i], a[i + 1..];
      assert a == f + [sep] + rest;
      assert a + [sep] + b == f + [sep] + (rest + [sep] + b);
      SplitField(f, rest, sep);
      SplitField(f, rest + [sep] + b, sep);
      SplitConcat(rest, b, sep);
    }
  }

  /** Splitting inverts joining exactly on separator-free fields. */
  lemma {:induction false} SplitJoin<T>(parts: seq<seq<T>>, sep: T)
    requires |parts| >= 1
    requires forall i | 0 <= i < |parts| :: sep !in parts[i]
    ensures Split(Join(parts, sep), sep) == parts
  {
    if |parts| == 1 {
      SplitOne(parts[0], sep);
    } else {
      SplitJoin(parts[1..], sep);
      SplitField(parts[0], Join(parts[1..], sep), sep);
    }
  }

  /** Joining inverts splitting on every text. */
  lemma {:induction false} JoinSplit<T>(s: seq<T>, sep: T)
    ensures Join(Split(s, sep), sep) == s
  {
    if s != [] {
      var rest := Split(s[1..], sep);
      JoinSplit(s[1..], sep);
      if s[0] == sep {
        assert ([[]] + rest)[1..] == rest;
        assert s == [] + [sep] + s[1..];
      } else if |rest| > 1 {
        assert Split(s, sep)[1..] == rest[1..];
        assert s == [s[0]] + s[1..];
      }
    }
  }

  predicate IsDigit(c: char) {
    '0' <= c <= '9'
  }

  function Digit(d: nat): (c: char)
    requires d < 10
    ensures IsDigit(c) && c as int - '0' as int == d
  {
    (d + '0' as int) as char
  }

  /** `%d` for a non-negative number. */
  function Decimal(n: nat): (s: string) {
    if n < 10 then [Digit(n)] else Decimal(n / 10) + [Digit(n % 10)]
  }

  predicate AllDigits(s: string) {
    forall i | 0 <= i < |s| :: IsDigit(s[i])
  }

  /** The number a digit string denotes; the empty string denotes 0. */
  function Value(s: string): nat
    requires AllDigits(s)
  {
    if s == [] then 0 else Value(s[..|s| - 1]) * 10 + (s[|s| - 1] as int - '0' as int)
  }

  /** Decimal text: digits only, at least one, no superfluous zero. */
  predicate IsDecimal(s: string) {
    s != [] && AllDigits(s) && (|s| > 1 ==> s[0] != '0')
  }

  lemma {:induction false} DecimalRoundTrip(n: nat)
    ensures IsDecimal(Decimal(n)) && Value(Decimal(n)) == n
    ensures n > 0 ==> Decimal(n)[0] != '0'
  {
    if n >= 10 {
      DecimalRoundTrip(n / 10);
      var d := Decimal(n);
      assert d[..|d| - 1] == Decimal(n / 10);
      assert forall i | 0 <= i < |d| - 1 :: d[i] == Decimal(n / 10)[i];
    } else {
      assert Decimal(n)[..0] == [];
    }
  }

  lemma {:induction false} ValueRoundTrip(s: string)
    requires IsDecimal(s)
    ensures Decimal(Value(s)) == s
    ensures |s| > 1 ==> Value(s) >= 10
    ensures s[0] != '0' ==> Value(s) > 0
  {
    var c := s[|s| - 1] as int - '0' as int;
    if |s| == 1 {
      assert s[..0] == [] && Value(s) == c;
    } else {
      var t := s[..|s| - 1];
      ValueRoundTrip(t);
      assert Value(s) == Value(t) * 10 + c && Value(t) > 0;
      assert s == t + [s[|s| - 1]];
    }
  }

  /** A digit string's value bounds the value of each of its prefixes. */
  lemma {:induction false} ValueGrows(p: string, rest: string)
    requires AllDigits(p + rest)
    ensures AllDigits(p) && Value(p) <= Value(p + rest)
  {
    assert forall i | 0 <= i < |p| :: (p + rest)[i] == p[i];
    if rest == [] {
      assert p + rest == p;
    } else {
      var t := p + rest;
      assert t[..|t| - 1] == p + rest[..|rest| - 1];
      ValueGrows(p, rest[..|rest| - 1]);
    }
  }
}
