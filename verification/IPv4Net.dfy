/** The IPv4 part of Go's `net` package written out, and a first IPv6 text; both meet the assumptions on the library. */
module IPv4Net {
  import opened Text
  import opened IPv4Text
  import opened Keys

  /** An address with its low `k` bits cleared. */
  function Clear(n: nat, k: nat): (r: nat)
    ensures r <= n
    decreases k
  {
    if k == 0 then n else 2 * Clear(n / 2, k - 1)
  }

  lemma {:induction false} ClearTwice(n: nat, k: nat)
    ensures Clear(Clear(n, k), k) == Clear(n, k)
    decreases k
  {
    if k > 0 {
      ClearTwice(n / 2, k - 1);
      assert 2 * Clear(n / 2, k - 1) / 2 == Clear(n / 2, k - 1);
    }
  }

  /** `net.ParseCIDR` on IPv4 text: a dotted quad, a slash, a mask length (zeros in front allowed); host bits are masked off. */
  function ParseCIDR4(s: string): Option<Network> {
    var f := Split(s, '/');
    if |f| == 2 && DottedQuad(f[0]) && f[1] != "" && AllDigits(f[1]) && Value(f[1]) <= 32
    then Some(Network(V4(Clear(Parse(f[0]), 32 - Value(f[1]))), Value(f[1])))
    else None
  }

  function CidrText4(net: Network): string {
    match net.base
    case V4(n) => Dotted(n) + "/" + Decimal(net.bits)
    case V6(_) => "/"
  }

  /** `IPNet.Contains`: the address agrees with the network on the mask. */
  predicate Contains4(net: Network, ip: IP) {
    net.base.V4? && ip.V4? && net.bits <= 32 && Clear(ip.n, 32 - net.bits) == net.base.n
  }

  const IPV4_LIB := NetLib(s => None, b => "", ParseCIDR4, CidrText4, Contains4)

  lemma {:induction false} TwoFields(a: string, d: string)
    requires '/' !in a && '/' !in d
    ensures Split(a + "/" + d, '/') == [a, d] && '/' in a + "/" + d
  {
    SplitField(a, d, '/');
    SplitOne(d, '/');
    assert (a + "/" + d)[|a|] == '/';
  }

  /** Canonical CIDR text parses back to its masked network. */
  lemma {:induction false} CidrTextParses(n: U32, bits: nat)
    requires bits <= 32 && Clear(n, 32 - bits) == n
    ensures var net := Network(V4(n), bits);
            ParseCIDR4(CidrText4(net)) == Some(net) && '/' in CidrText4(net) && '_' !in CidrText4(net)
  {
    DottedChars(n);
    DottedIsQuad(n);
    ParseDotted(n);
    DecimalRoundTrip(bits);
    TwoFields(Dotted(n), Decimal(bits));
  }

  lemma {:induction false} Canonical4(s: string)
    requires ParseCIDR4(s).Some?
    ensures var text := CidrText4(ParseCIDR4(s).value);
            ParseCIDR4(text) == ParseCIDR4(s) && '/' in text && '_' !in text
    ensures '/' in s
  {
    var f := Split(s, '/');
    var n, bits := Parse(f[0]), Value(f[1]);
    ClearTwice(n, 32 - bits);
    CidrTextParses(Clear(n, 32 - bits), bits);
    if '/' !in s {
      SplitOne(s, '/');
    }
  }

  /** The assumptions on the library are met by its IPv4 part. */
  lemma {:induction false} IPv4LibLawful()
    ensures Lawful(IPV4_LIB)
  {
    forall s | ParseCIDR4(s).Some?
      ensures var text := CidrText4(ParseCIDR4(s).value);
              '/' in s && ParseCIDR4(text) == ParseCIDR4(s) && '/' in text && '_' !in text
    {
      Canonical4(s);
    }
  }

  const ZERO16: Bytes16 := seq(16, _ => 0)

  /** The same with the one IPv6 text "::". */
  const IPV6_LIB := IPV4_LIB.(parseIP6 := s => if s == "::" then Some(V6(ZERO16)) else None, ip6Text := b => "::")

  lemma {:induction false} IPv6LibLawful()
    ensures Lawful(IPV6_LIB)
    ensures ParseIP(IPV6_LIB, "::") == Some(V6(ZERO16)) && !DottedQuad("::")
  {
    IPv4LibLawful();
    DottedParse("::");
    DottedChars(Parse("::"));
    assert "::"[0] == ':';
  }
}
