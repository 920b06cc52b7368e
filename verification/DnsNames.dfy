/** DNSBL query names (sections 2.1 and 2.4 of RFC 5782) and reverse names (section 3.5 of RFC 1035). */
module DnsNames {
  import opened Text
  import opened IPv4Text
  import opened Keys

  const ZONE := "open-blocklist.internal."
  const ARPA := "in-addr.arpa."

  /** The decoded address text, a label count that is no address, or a slice out of range. */
  datatype Decoded = Address(ip: string) | Malformed | Panic

  function Labels(qname: string, zone: string): seq<string> {
    Split(TrimSuffix(TrimSuffix(qname, zone), "."), '.')
  }

  function Reversed<T>(s: seq<T>): (r: seq<T>)
    ensures |r| == |s| && forall i | 0 <= i < |s| :: r[i] == s[|s| - 1 - i]
  {
    seq(|s|, i requires 0 <= i < |s| => s[|s| - 1 - i])
  }

  /** Eight groups of four characters. */
  function Groups(hex: string): (g: seq<string>)
    requires |hex| >= 32
    ensures |g| == 8 && forall k | 0 <= k < 8 :: g[k] == hex[4 * k..4 * k + 4]
  {
    seq(8, k requires 0 <= k < 8 => hex[4 * k..4 * k + 4])
  }

  function DecodeNibbles(labels: seq<string>): Decoded
    requires |labels| == 32
  {
    var hex := Concat(Reversed(labels));
    if |hex| < 32 then Panic else Address(Join(Groups(hex), ':'))
  }

  function RblQuery(qname: string): Decoded {
    var labels := Labels(qname, ZONE);
    if |labels| == 4 then Address(Join([labels[3], labels[2], labels[1], labels[0]], '.'))
    else if |labels| == 32 then DecodeNibbles(labels)
    else Malformed
  }

  function PtrQuery(qname: string): Decoded {
    var labels := Labels(qname, ARPA);
    if |labels| != 4 then Malformed
    else Address(Join([labels[3], labels[2], labels[1], labels[0]], '.'))
  }

  method RblQueryToIP(qname: string) returns (r: Decoded)
    ensures r == RblQuery(qname)
  {
    var name := TrimSuffix(qname, ZONE);
    name := TrimSuffix(name, ".");
    var labels := Split(name, '.');
    if |labels| == 4 {
      JoinFour(labels[3], labels[2], labels[1], labels[0], '.');
      return Address(labels[3] + "." + labels[2] + "." + labels[1] + "." + labels[0]);
    } else if |labels| == 32 {
      var reversed := new string[32];
      for i := 0 to 32
        invariant forall k | 0 <= k < i :: reversed[k] == labels[31 - k]
      {
        reversed[i] := labels[31 - i];
      }
      assert reversed[..] == Reversed(labels);
      var hex := Concat(reversed[..]);
      if |hex| < 32 {
        return Panic;
      }
      var parts := new string[8];
      for i := 0 to 8
        invariant forall k | 0 <= k < i :: parts[k] == hex[4 * k..4 * k + 4]
      {
        parts[i] := hex[i * 4..i * 4 + 4];
      }
      assert parts[..] == Groups(hex);
      return Address(Join(parts[..], ':'));
    } else {
      return Malformed;
    }
  }

  // ---- IPv4 round trips ---------------------------------------------------

  /** The benchmark's `reverseIP`: text that is no IPv4 address comes back as it is. */
  function ReverseIP(lib: NetLib, ip: string): string {
    match ParseIP(lib, ip)
    case Some(V4(n)) => Join(Reversed(OctetTexts(n)), '.')
    case _ => ip
  }

  lemma {:induction false} TrimName(name: string, zone: string)
    ensures TrimSuffix(TrimSuffix(name + "." + zone, zone), ".") == name
  {
  }

  lemma {:induction false} ReversedLabels(n: U32, zone: string)
    ensures Labels(Join(Reversed(OctetTexts(n)), '.') + "." + zone, zone) == Reversed(OctetTexts(n))
  {
    var p := Reversed(OctetTexts(n));
    TrimName(Join(p, '.'), zone);
    forall i | 0 <= i < 4 ensures '.' !in p[i] {
      OctetText(n, 3 - i);
    }
    SplitJoin(p, '.');
  }

  /** Both decoders give back the address whose reversed name was asked for, for every IPv4 address. */
  lemma {:induction false} QueryRoundTrip(lib: NetLib, n: U32)
    ensures RblQuery(ReverseIP(lib, Dotted(n)) + "." + ZONE) == Address(Dotted(n))
    ensures PtrQuery(ReverseIP(lib, Dotted(n)) + "." + ARPA) == Address(Dotted(n))
  {
    ParseIPDotted(lib, n);
    ReversedLabels(n, ZONE);
    ReversedLabels(n, ARPA);
    var p := Reversed(OctetTexts(n));
    assert [p[3], p[2], p[1], p[0]] == OctetTexts(n);
  }

  // ---- Nibble names -------------------------------------------------------

  lemma {:induction false} ConcatSingles(p: seq<string>)
    requires forall i | 0 <= i < |p| :: |p[i]| == 1
    ensures |Concat(p)| == |p| && forall i | 0 <= i < |p| :: Concat(p)[i] == p[i][0]
  {
    if p != [] {
      ConcatSingles(p[1..]);
    }
  }

  /** Joined groups of four: character `j` of group `k` is at `5k + j`. */
  lemma {:induction false} JoinFixed(g: seq<string>, k: nat, j: nat)
    requires k < |g| && j < 4 && forall i | 0 <= i < |g| :: |g[i]| == 4
    ensures |Join(g, ':')| == 5 * |g| - 1
    ensures Join(g, ':')[5 * k + j] == g[k][j]
    ensures k < |g| - 1 ==> Join(g, ':')[5 * k + 4] == ':'
    decreases |g|
  {
    if |g| > 1 {
      JoinFixed(g[1..], if k > 0 then k - 1 else 0, j);
      assert forall i | 0 <= i < |g| - 1 :: g[1..][i] == g[i + 1];
    }
  }

  ghost predicate NibbleLabels(labels: seq<string>) {
    |labels| == 32 && forall i | 0 <= i < 32 :: |labels[i]| == 1
  }

  lemma {:induction false} GroupsAt(hex: string, i: nat)
    requires |hex| == 32 && i < 32
    ensures |Groups(hex)| == 8 && (forall k | 0 <= k < 8 :: |Groups(hex)[k]| == 4)
    ensures Groups(hex)[i / 4][i % 4] == hex[i]
  {
    assert 4 * (i / 4) + i % 4 == i;
  }

  /** Eight groups with colons between them; with the colons left out, the labels in reverse order. */
  lemma {:induction false} NibblesReversed(labels: seq<string>, i: nat)
    requires NibbleLabels(labels) && i < 32
    ensures DecodeNibbles(labels).Address? && |DecodeNibbles(labels).ip| == 39
    ensures DecodeNibbles(labels).ip[5 * (i / 4) + i % 4] == labels[31 - i][0]
    ensures i < 28 ==> DecodeNibbles(labels).ip[5 * (i / 4) + 4] == ':'
  {
    var r := Reversed(labels);
    ConcatSingles(r);
    GroupsAt(Concat(r), i);
    JoinFixed(Groups(Concat(r)), i / 4, i % 4);
  }

  lemma {:induction false} NibblesInjective(a: seq<string>, b: seq<string>)
    requires NibbleLabels(a) && NibbleLabels(b) && DecodeNibbles(a) == DecodeNibbles(b)
    ensures a == b
  {
    forall i | 0 <= i < 32 ensures a[i] == b[i] {
      NibblesReversed(a, 31 - i);
      NibblesReversed(b, 31 - i);
      assert a[i][0] == b[i][0];
    }
  }

  function TotalLength(labels: seq<string>): nat {
    if labels == [] then 0 else |labels[0]| + TotalLength(labels[1..])
  }

  lemma {:induction false} ConcatLength(p: seq<string>)
    ensures |Concat(p)| == TotalLength(p)
  {
    if p != [] {
      ConcatLength(p[1..]);
    }
  }

  lemma {:induction false} LengthSnoc(p: seq<string>, x: string)
    ensures TotalLength(p + [x]) == TotalLength(p) + |x|
  {
    if p != [] {
      LengthSnoc(p[1..], x);
      assert (p + [x])[1..] == p[1..] + [x];
    } else {
      assert (p + [x])[1..] == [];
    }
  }

  lemma {:induction false} LengthReversed(p: seq<string>)
    ensures TotalLength(Reversed(p)) == TotalLength(p)
  {
    if p != [] {
      LengthReversed(p[1..]);
      assert Reversed(p) == Reversed(p[1..]) + [p[0]];
      LengthSnoc(Reversed(p[1..]), p[0]);
    }
  }

  /** Decoding slices out of range exactly on 32 labels with fewer than 32 characters in all. */
  lemma {:induction false} PanicsIff(qname: string)
    ensures RblQuery(qname) == Panic <==>
            |Labels(qname, ZONE)| == 32 && TotalLength(Labels(qname, ZONE)) < 32
  {
    var labels := Labels(qname, ZONE);
    ConcatLength(Reversed(labels));
    LengthReversed(labels);
  }

  /** Sixteen labels, each a single dot, as the DNS library writes them out: a backslash before each dot. */
  function DotLabels(k: nat): string {
    if k == 0 then "" else "\\.." + DotLabels(k - 1)
  }

  function DotFields(k: nat): (f: seq<string>)
    ensures |f| == 2 * k && TotalLength(f) == k
    ensures forall i | 0 <= i < |f| :: '.' !in f[i]
  {
    if k == 0 then [] else
      var rest := DotFields(k - 1);
      assert (["\\", ""] + rest)[1..] == [""] + rest && ([""] + rest)[1..] == rest;
      ["\\", ""] + rest
  }

  lemma {:induction false} JoinTwo(a: string, b: string, rest: seq<string>)
    ensures Join([a, b] + rest, '.') == a + "." + b + if rest == [] then "" else "." + Join(rest, '.')
  {
    var f, g := [a, b] + rest, [b] + rest;
    assert f[1..] == g && g[1..] == rest;
    assert rest == [] ==> Join(g, '.') == b;
  }

  lemma {:induction false} DotFieldsJoin(k: nat)
    requires k > 0
    ensures Join(DotFields(k), '.') + "." == DotLabels(k)
  {
    var rest := DotFields(k - 1);
    JoinTwo("\\", "", rest);
    if k > 1 {
      DotFieldsJoin(k - 1);
      DotText(Join(rest, '.'));
    }
  }

  lemma {:induction false} DotText(t: string)
    ensures "\\" + "." + "" + ("." + t) + "." == "\\.." + (t + ".")
  {
  }

  /** A name that arrives on the wire and slices out of range: sixteen one-dot labels before the zone. */
  lemma {:induction false} DotLabelsPanic()
    ensures RblQuery(DotLabels(16) + ZONE) == Panic
  {
    var name, f := DotLabels(16) + ZONE, DotFields(16);
    var t := Join(f, '.');
    DotFieldsJoin(16);
    assert name == t + "." + ZONE;
    TrimName(t, ZONE);
    SplitJoin(f, '.');
    assert Labels(name, ZONE) == f;
    PanicsIff(name);
  }
}
