/** Addresses, the assumed behaviour of Go's `net` package, and the etcd key encodings. */
module Keys {
  import opened Text
  import opened IPv4Text

  type Byte = b: int | 0 <= b < 256
  type Bytes = seq<Byte>
  type Bytes16 = b: seq<Byte> | |b| == 16 witness seq(16, _ => 0)

  /** A `net.IP` up to `To4`: IPv4-mapped addresses are V4. */
  datatype IP = V4(n: U32) | V6(b: Bytes16)

  /** A masked network, as `net.ParseCIDR` returns it. */
  datatype Network = Network(base: IP, bits: nat)

  /** Go's `net` package where its text forms are not IPv4 dotted quads. */
  datatype NetLib = NetLib(
    parseIP6: string -> Option<IP>,
    ip6Text: Bytes16 -> string,
    parseCIDR: string -> Option<Network>,
    cidrText: Network -> string,
    contains: (Network, IP) -> bool)

  predicate IsHex(c: char) {
    IsDigit(c) || 'a' <= c <= 'f' || 'A' <= c <= 'F'
  }

  /** `net.ParseIP` */
  function ParseIP(lib: NetLib, s: string): Option<IP> {
    if DottedQuad(s) then Some(V4(Parse(s))) else lib.parseIP6(s)
  }

  /** `net.IP.String` */
  function IPText(lib: NetLib, ip: IP): string {
    match ip
    case V4(n) => Dotted(n)
    case V6(b) => lib.ip6Text(b)
  }

  /** What is assumed of the library: text forms use their alphabet, and canonical text parses back. */
  ghost predicate Lawful(lib: NetLib) {
    && (forall s :: lib.parseIP6(s).Some? ==>
                      ':' in s && forall c | c in s :: IsHex(c) || c == ':' || c == '.')
    && (forall s :: lib.parseIP6(s).Some? && lib.parseIP6(s).value.V6? ==>
                      var ip := lib.parseIP6(s).value;
                      lib.parseIP6(lib.ip6Text(ip.b)) == Some(ip))
    && (forall s :: lib.parseCIDR(s).Some? ==>
                      '/' in s && var text := lib.cidrText(lib.parseCIDR(s).value);
                      lib.parseCIDR(text) == lib.parseCIDR(s) && '/' in text && '_' !in text)
  }

  lemma {:induction false} ParseIPDotted(lib: NetLib, n: U32)
    ensures DottedQuad(Dotted(n)) && ParseIP(lib, Dotted(n)) == Some(V4(n))
  {
    ParseDotted(n);
    DottedIsQuad(n);
  }

  /** The canonical text of a parsed address is a fixed point of parsing and holds no slash. */
  lemma {:induction false} CanonicalIP(lib: NetLib, s: string)
    requires Lawful(lib) && ParseIP(lib, s).Some?
    ensures ParseIP(lib, IPText(lib, ParseIP(lib, s).value)) == ParseIP(lib, s)
    ensures '/' !in IPText(lib, ParseIP(lib, s).value)
    ensures '/' !in s
  {
    var ip := ParseIP(lib, s).value;
    ParsedChars(lib, s);
    match ip
    case V4(n) =>
      ParseIPDotted(lib, n);
      ParsedChars(lib, Dotted(n));
    case V6(b) =>
      var t := lib.ip6Text(b);
      assert lib.parseIP6(t) == Some(ip) && ':' in t;
      if DottedQuad(t) {
        DottedParse(t);
        DottedChars(Parse(t));
        assert false;
      }
      ParsedChars(lib, t);
  }

  /** Only hexadecimal digits, colons and dots ever parse as an address. */
  lemma {:induction false} ParsedChars(lib: NetLib, s: string)
    requires Lawful(lib) && ParseIP(lib, s).Some?
    ensures forall c | c in s :: IsHex(c) || c == ':' || c == '.'
  {
    if DottedQuad(s) {
      DottedParse(s);
      DottedChars(Parse(s));
    }
  }

  // ---- Key encodings ------------------------------------------------------

  const RBL_PREFIX := "/skydns/internal/open-blocklist"
  const RBL_PREFIX_SCAN := RBL_PREFIX + "/"
  const CIDR_PREFIX := "/skydns/internal/open-blocklist-cidr"
  const CIDR_PREFIX_SCAN := CIDR_PREFIX + "/"
  const REVERSE4_PREFIX := "/skydns/arpa/in-addr"
  const REVERSE6_PREFIX := "/skydns/arpa/ip6"

  function HexDigit(d: nat): char
    requires d < 16
  {
    if d < 10 then Digit(d) else (d - 10 + 'a' as int) as char
  }

  /** `hex.EncodeToString` */
  function HexEncode(b: seq<Byte>): (s: string)
    ensures |s| == 2 * |b|
    ensures '/' !in s
  {
    if b == [] then [] else [HexDigit(b[0] / 16), HexDigit(b[0] % 16)] + HexEncode(b[1..])
  }

  function Singletons(s: string): (p: seq<string>)
    ensures |p| == |s| && forall i | 0 <= i < |s| :: p[i] == [s[i]]
  {
    seq(|s|, i requires 0 <= i < |s| => [s[i]])
  }

  method IPv6Nibbles(b: Bytes16) returns (out: seq<string>)
    ensures out == Singletons(HexEncode(b))
    ensures |out| == 32
  {
    var hexstr := HexEncode(b);
    out := [];
    for i := 0 to |hexstr|
      invariant |out| == i
      invariant forall k | 0 <= k < i :: out[k] == [hexstr[k]]
    {
      out := out + [[hexstr[i]]];
    }
  }

  /** The path segments of an address: four octets or thirty-two nibbles. */
  function Segments(ip: IP): (p: seq<string>)
    ensures |p| == if ip.V4? then 4 else 32
  {
    match ip
    case V4(n) => OctetTexts(n)
    case V6(b) => Singletons(HexEncode(b))
  }

  function RblKey(ip: IP): string {
    RBL_PREFIX + "/" + Join(Segments(ip), '/')
  }

  function ReverseKey(ip: IP): string {
    (if ip.V4? then REVERSE4_PREFIX else REVERSE6_PREFIX) + "/" + Join(Segments(ip), '/')
  }

  function CidrToEtcdKey(cidr: string): string {
    CIDR_PREFIX + "/" + Replace(cidr, '/', '_')
  }

  function CidrFromEtcdKey(key: string): string {
    var prefix := CIDR_PREFIX + "/";
    if !HasPrefix(key, prefix) then "" else Replace(key[|prefix|..], '_', '/')
  }

  /** The last four path segments joined by dots: how both loaders read an address off a key. */
  function LastFour(key: string): Option<string> {
    var parts := Split(key, '/');
    if |parts| < 4 then None else Some(Join(parts[|parts| - 4..], '.'))
  }

  function IpFromKey(lib: NetLib, key: string): string {
    var ip := LastFour(key);
    if ip.Some? && ParseIP(lib, ip.value).Some? then ip.value else ""
  }

  // ---- Injectivity and disjointness --------------------------------------

  lemma {:induction false} HexInjective(a: seq<Byte>, b: seq<Byte>)
    requires HexEncode(a) == HexEncode(b)
    ensures a == b
  {
    if a != [] && b != [] {
      var s, t := HexEncode(a), HexEncode(b);
      assert s[0] == HexDigit(a[0] / 16) && s[1] == HexDigit(a[0] % 16);
      assert t[0] == HexDigit(b[0] / 16) && t[1] == HexDigit(b[0] % 16);
      assert a[0] / 16 == b[0] / 16 && a[0] % 16 == b[0] % 16;
      assert s[2..] == HexEncode(a[1..]) && t[2..] == HexEncode(b[1..]);
      HexInjective(a[1..], b[1..]);
      assert a == [a[0]] + a[1..] && b == [b[0]] + b[1..];
    }
  }

  lemma {:induction false} SegmentsPlain(ip: IP)
    ensures forall i | 0 <= i < |Segments(ip)| :: '/' !in Segments(ip)[i]
  {
    if ip.V4? {
      forall i | 0 <= i < 4 ensures '/' !in OctetTexts(ip.n)[i] { OctetText(ip.n, i); }
    }
  }

  lemma {:induction false} SegmentsInjective(x: IP, y: IP)
    requires Segments(x) == Segments(y)
    ensures x == y
  {
    match x
    case V4(n) => DottedInjective(n, y.n);
    case V6(b) =>
      var s, t := HexEncode(b), HexEncode(y.b);
      forall i | 0 <= i < 32 ensures s[i] == t[i] {
        assert Segments(x)[i] == [s[i]] && Segments(y)[i] == [t[i]];
      }
      HexInjective(b, y.b);
  }

  lemma {:induction false} JoinedSegmentsInjective(x: IP, y: IP)
    requires Join(Segments(x), '/') == Join(Segments(y), '/')
    ensures x == y
  {
    SegmentsPlain(x);
    SegmentsPlain(y);
    SplitJoin(Segments(x), '/');
    SplitJoin(Segments(y), '/');
    SegmentsInjective(x, y);
  }

  /** The characters at which the prefixes part. */
  lemma {:induction false} PrefixFacts()
    ensures |RBL_PREFIX| == 31 && RBL_PREFIX[8] == 'i'
    ensures |CIDR_PREFIX| == 36 && CIDR_PREFIX[8] == 'i' && CIDR_PREFIX[31] == '-'
    ensures CIDR_PREFIX[..31] == RBL_PREFIX
    ensures |REVERSE4_PREFIX| == 20 && REVERSE4_PREFIX[8] == 'a' && REVERSE4_PREFIX[14] == 'n'
    ensures |REVERSE6_PREFIX| == 16 && REVERSE6_PREFIX[8] == 'a' && REVERSE6_PREFIX[14] == 'p'
  {
  }

  lemma {:induction false} PathsDiffer(p: string, r: string, q: string, t: string, i: nat)
    requires i < |p| && i < |q| + 1 && p[i] != (if i < |q| then q[i] else '/')
    ensures p + "/" + r != q + "/" + t
  {
    assert (p + "/" + r)[i] == p[i];
    assert (q + "/" + t)[i] == if i < |q| then q[i] else '/';
  }

  lemma {:induction false} PathInjective(p: string, x: IP, y: IP)
    requires p + "/" + Join(Segments(x), '/') == p + "/" + Join(Segments(y), '/')
    ensures x == y
  {
    var s, t := Join(Segments(x), '/'), Join(Segments(y), '/');
    assert s == (p + "/" + s)[|p| + 1..];
    assert t == (p + "/" + t)[|p| + 1..];
    JoinedSegmentsInjective(x, y);
  }

  /** Both address encodings are injective over IPv4 and IPv6 together. */
  lemma {:induction false} AddressKeysInjective(x: IP, y: IP)
    ensures RblKey(x) == RblKey(y) ==> x == y
    ensures ReverseKey(x) == ReverseKey(y) ==> x == y
  {
    PrefixFacts();
    if RblKey(x) == RblKey(y) {
      PathInjective(RBL_PREFIX, x, y);
    }
    if ReverseKey(x) == ReverseKey(y) {
      var s, t := Join(Segments(x), '/'), Join(Segments(y), '/');
      if x.V4? && y.V6? {
        PathsDiffer(REVERSE4_PREFIX, s, REVERSE6_PREFIX, t, 14);
      } else if x.V6? && y.V4? {
        PathsDiffer(REVERSE6_PREFIX, s, REVERSE4_PREFIX, t, 14);
      } else {
        PathInjective(if x.V4? then REVERSE4_PREFIX else REVERSE6_PREFIX, x, y);
      }
    }
  }

  /** The three key families never meet, whatever the addresses and the CIDR text. */
  lemma {:induction false} KeysDisjoint(x: IP, y: IP, cidr: string)
    ensures RblKey(x) != ReverseKey(y)
    ensures RblKey(x) != CidrToEtcdKey(cidr)
    ensures ReverseKey(y) != CidrToEtcdKey(cidr)
  {
    PrefixFacts();
    var s, t, c := Join(Segments(x), '/'), Join(Segments(y), '/'), Replace(cidr, '/', '_');
    var q := if y.V4? then REVERSE4_PREFIX else REVERSE6_PREFIX;
    PathsDiffer(RBL_PREFIX, s, q, t, 8);
    PathsDiffer(q, t, CIDR_PREFIX, c, 8);
    PathsDiffer(CIDR_PREFIX, c, RBL_PREFIX, s, 31);
  }

  /** CIDR keys decode to their CIDR exactly when it holds no underscore. */
  lemma {:induction false} CidrKeyRoundTrip(cidr: string)
    ensures CidrFromEtcdKey(CidrToEtcdKey(cidr)) == cidr <==> '_' !in cidr
  {
  }

  lemma {:induction false} CidrKeyInjective(c: string, d: string)
    requires '_' !in c && '_' !in d && CidrToEtcdKey(c) == CidrToEtcdKey(d)
    ensures c == d
  {
    CidrKeyRoundTrip(c);
    CidrKeyRoundTrip(d);
  }

  // ---- Decoding -----------------------------------------------------------

  lemma {:induction false} SplitPath(prefix: string, p: seq<string>)
    requires |p| >= 4 && forall i | 0 <= i < |p| :: '/' !in p[i]
    ensures LastFour(prefix + "/" + Join(p, '/')) == Some(Join(p[|p| - 4..], '.'))
  {
    SplitConcat(prefix, Join(p, '/'), '/');
    SplitJoin(p, '/');
    var parts := Split(prefix, '/') + p;
    assert parts[|parts| - 4..] == p[|p| - 4..];
  }

  lemma {:induction false} LastFourRbl(ip: IP)
    ensures LastFour(RblKey(ip)) == Some(Join(Segments(ip)[|Segments(ip)| - 4..], '.'))
  {
    SegmentsPlain(ip);
    SplitPath(RBL_PREFIX, Segments(ip));
  }

  lemma {:induction false} LastFourRbl4(n: U32)
    ensures LastFour(RblKey(V4(n))) == Some(Dotted(n))
  {
    LastFourRbl(V4(n));
    assert OctetTexts(n)[0..] == OctetTexts(n);
  }

  /** The IPv4 key decodes to the address text, on the watch path and on the load path. */
  lemma {:induction false} IpFromRblKey(lib: NetLib, n: U32)
    ensures LastFour(RblKey(V4(n))) == Some(Dotted(n))
    ensures IpFromKey(lib, RblKey(V4(n))) == Dotted(n)
  {
    LastFourRbl4(n);
    ParseIPDotted(lib, n);
  }

  /** The last four nibbles of an IPv6 address, which are all that both loaders read of its key. */
  function Tail(b: Bytes16): (t: seq<nat>)
    ensures |t| == 4 && forall i | 0 <= i < 4 :: t[i] < 16
  {
    [b[14] / 16, b[14] % 16, b[15] / 16, b[15] % 16]
  }

  predicate DecimalTail(b: Bytes16) {
    forall i | 0 <= i < 4 :: Tail(b)[i] < 10
  }

  /** The IPv4 address with those nibbles as its octets. */
  function TailAddress(b: Bytes16): U32 {
    ((Tail(b)[0] * 256 + Tail(b)[1]) * 256 + Tail(b)[2]) * 256 + Tail(b)[3]
  }

  lemma {:induction false} HexAt(b: seq<Byte>, i: nat)
    requires i < |b|
    ensures HexEncode(b)[2 * i] == HexDigit(b[i] / 16) && HexEncode(b)[2 * i + 1] == HexDigit(b[i] % 16)
  {
    if i > 0 {
      HexAt(b[1..], i - 1);
      assert HexEncode(b)[2..] == HexEncode(b[1..]);
      assert HexEncode(b)[2 * i] == HexEncode(b)[2..][2 * (i - 1)];
      assert HexEncode(b)[2 * i + 1] == HexEncode(b)[2..][2 * (i - 1) + 1];
    }
  }

  function TailTexts(b: Bytes16): seq<string> {
    var t := Tail(b);
    [[HexDigit(t[0])], [HexDigit(t[1])], [HexDigit(t[2])], [HexDigit(t[3])]]
  }

  lemma {:induction false} LastFourRbl6(b: Bytes16)
    ensures LastFour(RblKey(V6(b))) == Some(Join(TailTexts(b), '.'))
    ensures Split(Join(TailTexts(b), '.'), '.') == TailTexts(b)
  {
    LastFourRbl(V6(b));
    HexAt(b, 14);
    HexAt(b, 15);
    assert Segments(V6(b))[28..] == TailTexts(b);
    SplitJoin(TailTexts(b), '.');
  }

  lemma {:induction false} DigitOctet(v: nat)
    requires v < 10
    ensures Decimal(v) == [HexDigit(v)]
  {
    DecimalOctet(v);
  }

  lemma {:induction false} DecimalTailText(b: Bytes16)
    requires DecimalTail(b)
    ensures OctetTexts(TailAddress(b)) == TailTexts(b)
  {
    var t, p := Tail(b), TailTexts(b);
    OctetsOfBase256(t[0], t[1], t[2], t[3]);
    forall i | 0 <= i < 4 ensures p[i] == Decimal(t[i]) {
      DigitOctet(t[i]);
    }
  }

  lemma {:induction false} TailTextPlain(b: Bytes16)
    ensures ':' !in Join(TailTexts(b), '.')
  {
    var p := TailTexts(b);
    JoinFour(p[0], p[1], p[2], p[3], '.');
  }

  /** An IPv6 key reads as text without colons, and as an IPv4 address exactly if its last four nibbles are decimal. */
  lemma {:induction false} IpFromRblKey6(b: Bytes16)
    ensures LastFour(RblKey(V6(b))).Some? && ':' !in LastFour(RblKey(V6(b))).value
    ensures DottedQuad(LastFour(RblKey(V6(b))).value) <==> DecimalTail(b)
    ensures DecimalTail(b) ==> LastFour(RblKey(V6(b))) == Some(Dotted(TailAddress(b)))
  {
    LastFourRbl6(b);
    TailTextPlain(b);
    if DecimalTail(b) {
      DecimalTailText(b);
      DottedIsQuad(TailAddress(b));
    } else {
      var i :| 0 <= i < 4 && Tail(b)[i] >= 10;
      assert !IsDigit(TailTexts(b)[i][0]);
    }
  }

  /** So that is the address a watcher takes it for, if any. */
  lemma {:induction false} WatchedKey6(lib: NetLib, b: Bytes16)
    requires Lawful(lib)
    ensures IpFromKey(lib, RblKey(V6(b))) == if DecimalTail(b) then Dotted(TailAddress(b)) else ""
  {
    IpFromRblKey6(b);
  }

  lemma {:induction false} SplitFive(a: string, b: string, c: string, x: string)
    requires a != "" && '/' !in a && '/' !in b && '/' !in c && '/' !in x
    ensures LastFour("/" + a + "/" + b + "/" + c + "/" + x) == Some(a + "." + b + "." + c + "." + x)
    ensures (a + "." + b + "." + c + "." + x)[0] == a[0]
  {
    var p := [a, b, c, x];
    JoinFour(a, b, c, x, '/');
    JoinFour(a, b, c, x, '.');
    SplitPath("", p);
    assert p[0..] == p;
    assert "" + "/" + Join(p, '/') == "/" + a + "/" + b + "/" + c + "/" + x;
  }

  lemma {:induction false} CidrPathStart(x: string)
    requires '/' !in x
    ensures var v := LastFour(CIDR_PREFIX + "/" + x); v.Some? && v.value != "" && v.value[0] == 's'
  {
    assert "/" + "skydns" + "/" + "internal" + "/" + "open-blocklist-cidr" == CIDR_PREFIX;
    SplitFive("skydns", "internal", "open-blocklist-cidr", x);
  }

  lemma {:induction false} NoIpText(lib: NetLib, s: string)
    requires Lawful(lib) && s != "" && s[0] == 's'
    ensures ParseIP(lib, s).None?
  {
    assert s[0] in s;
    if ParseIP(lib, s).Some? {
      ParsedChars(lib, s);
    }
  }

  /** CIDR keys lie in the IP watcher's range, which has no trailing slash, and decode to no IP there. */
  lemma {:induction false} CidrKeyIsNoIp(lib: NetLib, cidr: string)
    requires Lawful(lib)
    ensures HasPrefix(CidrToEtcdKey(cidr), RBL_PREFIX)
    ensures !HasPrefix(CidrToEtcdKey(cidr), RBL_PREFIX_SCAN)
    ensures IpFromKey(lib, CidrToEtcdKey(cidr)) == ""
  {
    PrefixFacts();
    assert CidrToEtcdKey(cidr)[31] == '-';
    CidrPathStart(Replace(cidr, '/', '_'));
    NoIpText(lib, LastFour(CidrToEtcdKey(cidr)).value);
  }
}
