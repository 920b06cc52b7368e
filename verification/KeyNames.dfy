/** The etcd keys as paths of the DNS names they answer for: skydns reads a name's labels from the last one. */
module KeyNames {
  import opened Text
  import opened IPv4Text
  import opened Keys
  import opened DnsNames

  /** Where skydns keeps the records of a name. */
  function SkyPath(name: string): string {
    "/skydns/" + Join(Reversed(Split(name, '.')), '/')
  }

  lemma {:induction false} ReversedConcat<T>(a: seq<T>, b: seq<T>)
    ensures Reversed(a + b) == Reversed(b) + Reversed(a)
  {
  }

  lemma {:induction false} ReversedTwice<T>(a: seq<T>)
    ensures Reversed(Reversed(a)) == a
  {
  }

  lemma {:induction false} JoinConcat<T>(a: seq<seq<T>>, b: seq<seq<T>>, sep: T)
    requires a != [] && b != []
    ensures Join(a + b, sep) == Join(a, sep) + [sep] + Join(b, sep)
  {
    if |a| == 1 {
      assert (a + b)[1..] == b;
    } else {
      JoinConcat(a[1..], b, sep);
      assert (a + b)[1..] == a[1..] + b;
      assert a[0] + [sep] + (Join(a[1..], sep) + [sep] + Join(b, sep))
             == (a[0] + [sep] + Join(a[1..], sep)) + [sep] + Join(b, sep);
    }
  }

  /** A name of reversed address labels under a zone of two is the path of the zone and then the labels in order. */
  lemma {:induction false} PathUnder(labels: seq<string>, inner: string, outer: string)
    requires labels != [] && (forall i | 0 <= i < |labels| :: '.' !in labels[i]) && '.' !in inner && '.' !in outer
    ensures SkyPath(Join(Reversed(labels), '.') + "." + (inner + "." + outer))
            == "/skydns/" + (outer + "/" + inner + "/" + Join(labels, '/'))
  {
    var r, zone := Reversed(labels), inner + "." + outer;
    SplitConcat(Join(r, '.'), zone, '.');
    SplitJoin(r, '.');
    SplitField(inner, outer, '.');
    SplitOne(outer, '.');
    assert Split(Join(r, '.') + "." + zone, '.') == r + [inner, outer];
    ReversedConcat(r, [inner, outer]);
    ReversedTwice(labels);
    assert Reversed([inner, outer]) == [outer, inner];
    JoinConcat([outer, inner], labels, '/');
    JoinPair(outer, inner);
  }

  lemma {:induction false} JoinPair(a: string, b: string)
    ensures Join([a, b], '/') == a + "/" + b
  {
    assert [a, b][1..] == [b];
  }

  lemma {:induction false} OctetLabels(n: U32)
    ensures forall i | 0 <= i < 4 :: '.' !in OctetTexts(n)[i]
  {
    forall i | 0 <= i < 4 ensures '.' !in OctetTexts(n)[i] {
      OctetText(n, i);
    }
  }

  /** The zones and prefixes as text. */
  lemma {:induction false} Zones()
    ensures "in-addr" + "." + "arpa" == "in-addr.arpa" && "ip6" + "." + "arpa" == "ip6.arpa"
    ensures REVERSE4_PREFIX == "/skydns/" + "arpa" + "/" + "in-addr" && REVERSE6_PREFIX == "/skydns/" + "arpa" + "/" + "ip6"
  {
  }

  lemma {:induction false} BlockZone()
    ensures "open-blocklist" + "." + "internal" == "open-blocklist.internal"
    ensures RBL_PREFIX == "/skydns/" + "internal" + "/" + "open-blocklist"
  {
  }

  lemma {:induction false} NameUnder(lib: NetLib, n: U32, inner: string, outer: string, prefix: string)
    requires '.' !in inner && '.' !in outer && prefix == "/skydns/" + outer + "/" + inner
    ensures SkyPath(ReverseIP(lib, Dotted(n)) + "." + (inner + "." + outer)) == prefix + "/" + Join(OctetTexts(n), '/')
  {
    ParseIPDotted(lib, n);
    OctetLabels(n);
    PathUnder(OctetTexts(n), inner, outer);
    PathText(outer, inner, prefix, Join(OctetTexts(n), '/'));
  }

  /** The reverse key of every IPv4 address is where its name under in-addr.arpa is looked up. */
  lemma {:induction false} ReverseKeyIsName(lib: NetLib, n: U32)
    ensures SkyPath(ReverseIP(lib, Dotted(n)) + "." + "in-addr.arpa") == ReverseKey(V4(n))
  {
    Zones();
    NameUnder(lib, n, "in-addr", "arpa", REVERSE4_PREFIX);
  }

  /** And its forward key where the block list's name for it is. */
  lemma {:induction false} RblKeyIsName(lib: NetLib, n: U32)
    ensures SkyPath(ReverseIP(lib, Dotted(n)) + "." + "open-blocklist.internal") == RblKey(V4(n))
  {
    BlockZone();
    NameUnder(lib, n, "open-blocklist", "internal", RBL_PREFIX);
  }

  lemma {:induction false} PathText(outer: string, inner: string, prefix: string, x: string)
    requires prefix == "/skydns/" + outer + "/" + inner
    ensures "/skydns/" + (outer + "/" + inner + "/" + x) == prefix + "/" + x
  {
  }

  // ---- IPv6 ---------------------------------------------------------------

  const HEX := "0123456789abcdef"

  /** Nibble `i` of an address, the high half of a byte first. */
  function Nibble(b: Bytes16, i: nat): (d: nat)
    requires i < 32
    ensures d < 16
  {
    if i % 2 == 0 then b[i / 2] / 16 else b[i / 2] % 16
  }

  lemma {:induction false} HexDigitIs(d: nat)
    requires d < 16
    ensures HexDigit(d) == HEX[d]
  {
  }

  lemma {:induction false} HexNibble(b: Bytes16, i: nat)
    requires i < 32
    ensures HexEncode(b)[i] == HexDigit(Nibble(b, i))
  {
    var j := i / 2;
    HexAt(b, j);
    if i % 2 == 0 {
      assert i == 2 * j;
    } else {
      assert i == 2 * j + 1;
    }
  }

  /** The segments of an IPv6 key are the address's nibbles in order, as hexadecimal digits. */
  lemma {:induction false} SegmentNibbles(b: Bytes16, i: nat)
    requires i < 32
    ensures Segments(V6(b))[i] == [HEX[Nibble(b, i)]]
  {
    HexNibble(b, i);
    HexDigitIs(Nibble(b, i));
  }

  /** Both IPv6 keys are read back segment by segment. */
  lemma {:induction false} KeyNibbles(b: Bytes16, i: nat)
    requires i < 32
    ensures |Split(ReverseKey(V6(b)), '/')| == 36 && Split(ReverseKey(V6(b)), '/')[4 + i] == [HEX[Nibble(b, i)]]
    ensures |Split(RblKey(V6(b)), '/')| == 36 && Split(RblKey(V6(b)), '/')[4 + i] == [HEX[Nibble(b, i)]]
  {
    SegmentsPlain(V6(b));
    SegmentNibbles(b, i);
    Zones();
    BlockZone();
    KeySegments("arpa", "ip6", REVERSE6_PREFIX, Segments(V6(b)));
    KeySegments("internal", "open-blocklist", RBL_PREFIX, Segments(V6(b)));
  }

  lemma {:induction false} KeySegments(outer: string, inner: string, prefix: string, p: seq<string>)
    requires prefix == "/skydns/" + outer + "/" + inner && '/' !in outer && '/' !in inner
    requires p != [] && forall i | 0 <= i < |p| :: '/' !in p[i]
    ensures Split(prefix + "/" + Join(p, '/'), '/') == ["", "skydns", outer, inner] + p
  {
    SplitConcat(prefix, Join(p, '/'), '/');
    SplitJoin(p, '/');
    var q := ["", "skydns", outer, inner];
    JoinFour("", "skydns", outer, inner, '/');
    assert prefix == Join(q, '/');
    SplitJoin(q, '/');
  }

  /** The reverse key of every IPv6 address is where its nibble name under ip6.arpa is looked up. */
  lemma {:induction false} Reverse6IsName(b: Bytes16)
    ensures SkyPath(Join(Reversed(Segments(V6(b))), '.') + "." + "ip6.arpa") == ReverseKey(V6(b))
  {
    var p := Segments(V6(b));
    forall i | 0 <= i < |p| ensures '.' !in p[i] {
      SegmentNibbles(b, i);
    }
    Zones();
    PathUnder(p, "ip6", "arpa");
    PathText("arpa", "ip6", REVERSE6_PREFIX, Join(p, '/'));
  }

  // ---- Networks -----------------------------------------------------------

  /** The key of a network is its text under the prefix, with an underscore for the slash. */
  lemma {:induction false} CidrKeyText(address: string, mask: string)
    requires '/' !in address && '/' !in mask
    ensures CidrToEtcdKey(address + "/" + mask) == "/skydns/internal/open-blocklist-cidr/" + address + "_" + mask
  {
    var c, d := address + "/" + mask, address + "_" + mask;
    assert Replace(c, '/', '_') == d;
    assert CIDR_PREFIX + "/" == "/skydns/internal/open-blocklist-cidr/";
  }
}
