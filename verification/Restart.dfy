/** In single-instance mode the tables mirror etcd, so loading after a restart rebuilds them. */
module Restart {
  import opened Text
  import opened IPv4Text
  import opened Keys
  import opened SliceMap
  import opened Records
  import opened Replay
  import opened EtcdLog
  import opened Mirror
  import opened LoadFold
  import IPv4Net
  import opened Store

  /** The stored values with their revisions set aside. */
  function Unstamped(etcd: map<string, Value>): map<string, KV> {
    map k | k in etcd :: KV(etcd[k], 0, 0)
  }

  /** Both tables hold exactly what etcd holds, and etcd holds only what the service writes. */
  ghost predicate Mirrored(lib: NetLib, st: Store) {
    && !st.multi
    && IpMirror(false, st.ips, Unstamped(st.etcd))
    && Distinct(st.cidrs) && CidrMirror(lib, ToMap(st.cidrs), Unstamped(st.etcd))
    && forall k | k in st.etcd :: KnownKey(k) && !st.etcd[k].Malformed?
  }

  lemma {:induction false} UnstampedSet(etcd: map<string, Value>, k: string, v: Value)
    ensures Unstamped(etcd[k := v]) == Unstamped(etcd)[k := KV(v, 0, 0)]
  {
  }

  lemma {:induction false} UnstampedDrop(etcd: map<string, Value>, ks: set<string>)
    ensures Unstamped(etcd - ks) == Unstamped(etcd) - ks
  {
  }

  lemma {:induction false} KnownAddressKeys(n: U32)
    ensures KnownKey(RblKey(V4(n))) && KnownKey(ReverseKey(V4(n)))
  {
    assert IsRblKey(RblKey(V4(n)), n);
    KeyPrefixes(V4(n), "");
  }

  // ---- Addresses ----------------------------------------------------------

  /** Changes at address keys do not show in the CIDR table. */
  lemma {:induction false} CidrUnaffected(lib: NetLib, t: map<string, CIDRBlock>, m: map<string, KV>, m': map<string, KV>, ip: IP)
    requires CidrMirror(lib, t, m)
    requires forall k | k != RblKey(ip) && k != ReverseKey(ip) :: SameAt(m, m', k)
    ensures CidrMirror(lib, t, m')
  {
    forall c ensures SameAt(m, m', CidrToEtcdKey(c)) {
      KeysDisjoint(ip, ip, c);
    }
    CidrMirrorOther(lib, t, m, m');
  }

  /** Changes at one reverse key do not show in the IP table. */
  lemma {:induction false} ReverseUnaffected(t: map<string, BlockEntry>, m: map<string, KV>, m': map<string, KV>, ip: IP)
    requires IpMirror(false, t, m)
    requires forall k | k != ReverseKey(ip) :: SameAt(m, m', k)
    ensures IpMirror(false, t, m')
  {
    forall n: U32 ensures SameAt(m, m', RblKey(V4(n))) {
      KeysDisjoint(V4(n), ip, "");
    }
    IpMirrorOther(false, t, m, m');
  }

  lemma {:induction false} MirroredPair(lib: NetLib, st: Store, n: U32, e: BlockEntry, u: Value, v: Value)
    requires Mirrored(lib, st) && !u.Malformed? && !v.Malformed?
    requires Norm(false, e) == Norm(false, EntryIn(Dotted(n), KV(u, 0, 0)))
    ensures Mirrored(lib, st.(etcd := st.etcd[RblKey(V4(n)) := u][ReverseKey(V4(n)) := v],
                              ips := st.ips[Dotted(n) := e]))
  {
    var rbl, rev := RblKey(V4(n)), ReverseKey(V4(n));
    var m := Unstamped(st.etcd);
    var m1 := m[rbl := KV(u, 0, 0)];
    var m2 := m1[rev := KV(v, 0, 0)];
    UnstampedSet(st.etcd, rbl, u);
    UnstampedSet(st.etcd[rbl := u], rev, v);
    IpMirrorSet(false, st.ips, m, n, KV(u, 0, 0), e);
    ReverseUnaffected(st.ips[Dotted(n) := e], m1, m2, V4(n));
    CidrUnaffected(lib, ToMap(st.cidrs), m, m2, V4(n));
    KnownAddressKeys(n);
  }

  lemma {:induction false} MirroredWriteIp(lib: NetLib, st: Store, n: U32, e: BlockEntry)
    requires Mirrored(lib, st) && e.ip == Dotted(n)
    ensures Mirrored(lib, WriteIp(st, Dotted(n), V4(n), e))
  {
    EntryRoundTrip(e);
    MirroredPair(lib, st, n, e, Block(RecordOf(e)), Ptr(REVERSE_HOST, PTR_TTL));
  }

  lemma {:induction false} MirroredForget(lib: NetLib, st: Store, n: U32)
    requires Mirrored(lib, st)
    ensures Mirrored(lib, st.(etcd := Forget(st.etcd, V4(n)), ips := st.ips - {Dotted(n)}))
  {
    var rbl, rev := RblKey(V4(n)), ReverseKey(V4(n));
    var m := Unstamped(st.etcd);
    var m1, m2 := m - {rbl}, m - {rbl, rev};
    UnstampedDrop(st.etcd, {rbl, rev});
    IpMirrorUnset(false, st.ips, m, n);
    ReverseUnaffected(st.ips - {Dotted(n)}, m1, m2, V4(n));
    CidrUnaffected(lib, ToMap(st.cidrs), m, m2, V4(n));
  }

  /** Removing any set of table keys together with their records. */
  lemma {:induction false} MirroredForgetAll(lib: NetLib, st: Store, names: set<string>)
    requires Mirrored(lib, st) && forall n | n in names :: DottedQuad(n)
    ensures Mirrored(lib, st.(etcd := st.etcd - AddressKeys(lib, names), ips := st.ips - names))
  {
    var keys := AddressKeys(lib, names);
    var m, m' := Unstamped(st.etcd), Unstamped(st.etcd - keys);
    UnstampedDrop(st.etcd, keys);
    var t' := st.ips - names;
    forall ip ensures IpAt(false, t', m', ip) {
      assert IpAt(false, st.ips, m, ip);
      if DottedQuad(ip) {
        QuadInAddressKeys(lib, names, ip);
      }
    }
    forall c ensures SameAt(m, m', CidrToEtcdKey(c)) {
      CidrNotAddressKey(lib, names, c);
    }
    CidrMirrorOther(lib, ToMap(st.cidrs), m, m');
  }

  lemma {:induction false} QuadInAddressKeys(lib: NetLib, names: set<string>, ip: string)
    requires DottedQuad(ip) && forall n | n in names :: DottedQuad(n)
    ensures KeyFor(ip) in AddressKeys(lib, names) <==> ip in names
  {
    InAddressKeys(lib, names, V4(Parse(ip)));
    assert ip in names ==> ParseIP(lib, ip) == Some(V4(Parse(ip)));
    forall n | n in names && ParseIP(lib, n) == Some(V4(Parse(ip))) ensures n == ip {
      DottedParse(n);
      DottedParse(ip);
    }
  }

  lemma {:induction false} CidrNotAddressKey(lib: NetLib, names: set<string>, c: string)
    ensures CidrToEtcdKey(c) !in AddressKeys(lib, names)
  {
    forall n | n in Parsed(lib, names)
      ensures RblKey(AddressOf(lib, n)) != CidrToEtcdKey(c) && ReverseKey(AddressOf(lib, n)) != CidrToEtcdKey(c)
    {
      KeysDisjoint(AddressOf(lib, n), AddressOf(lib, n), c);
    }
  }

  // ---- Networks -----------------------------------------------------------

  /** Changes at one CIDR key do not show in the IP table. */
  lemma {:induction false} IpUnaffected(t: map<string, BlockEntry>, m: map<string, KV>, m': map<string, KV>, c: string)
    requires IpMirror(false, t, m)
    requires forall k | k != CidrToEtcdKey(c) :: SameAt(m, m', k)
    ensures IpMirror(false, t, m')
  {
    forall n: U32 ensures SameAt(m, m', RblKey(V4(n))) {
      KeysDisjoint(V4(n), V4(n), c);
    }
    IpMirrorOther(false, t, m, m');
  }

  lemma {:induction false} KnownCidrKey(c: string)
    requires '_' !in c && c != ""
    ensures KnownKey(CidrToEtcdKey(c))
  {
    assert IsCidrKey(CidrToEtcdKey(c), c);
  }

  lemma {:induction false} MirroredCidrValue(lib: NetLib, st: Store, e: CIDREntry, v: Value)
    requires Mirrored(lib, st) && !v.Malformed?
    requires '_' !in e.key && e.key != "" && lib.parseCIDR(e.key) == Some(e.val.net)
    requires CIDREntryOf(e.key, e.val.net, RecordIn(KV(v, 0, 0))) == e
    ensures Mirrored(lib, st.(etcd := st.etcd[CidrToEtcdKey(e.key) := v], cidrs := Upserted(st.cidrs, e)))
  {
    var k, m := CidrToEtcdKey(e.key), Unstamped(st.etcd);
    UnstampedSet(st.etcd, k, v);
    UpsertMap(st.cidrs, e);
    CidrMirrorSet(lib, ToMap(st.cidrs), m, e.key, KV(v, 0, 0));
    IpUnaffected(st.ips, m, m[k := KV(v, 0, 0)], e.key);
    KnownCidrKey(e.key);
  }

  lemma {:induction false} MirroredWriteCidr(lib: NetLib, st: Store, e: CIDREntry)
    requires Mirrored(lib, st)
    requires '_' !in e.key && e.key != "" && lib.parseCIDR(e.key) == Some(e.val.net)
    ensures Mirrored(lib, WriteCidr(st, e))
  {
    CIDREntryRoundTrip(e);
    MirroredCidrValue(lib, st, e, Block(RecordOfCIDR(e.val)));
  }

  lemma {:induction false} MirroredDropCidr(lib: NetLib, st: Store, c: string)
    requires Mirrored(lib, st) && '_' !in c
    ensures Mirrored(lib, st.(etcd := st.etcd - {CidrToEtcdKey(c)}, cidrs := Removed(st.cidrs, c)))
  {
    var k, m := CidrToEtcdKey(c), Unstamped(st.etcd);
    UnstampedDrop(st.etcd, {k});
    RemoveMap(st.cidrs, c);
    CidrMirrorUnset(lib, ToMap(st.cidrs), m, c);
    IpUnaffected(st.ips, m, m - {k}, c);
  }

  lemma {:induction false} MirroredSweepCidrs(lib: NetLib, st: Store, names: seq<string>)
    requires Mirrored(lib, st) && forall i | 0 <= i < |names| :: '_' !in names[i]
    ensures Mirrored(lib, SweepCidrs(st, names))
  {
    if names != [] {
      MirroredSweepCidrs(lib, st, names[..|names| - 1]);
      MirroredDropCidr(lib, SweepCidrs(st, names[..|names| - 1]), names[|names| - 1]);
    }
  }

  lemma {:induction false} ExpiredCidrsInTable(s: seq<CIDREntry>, now: int, i: nat) returns (j: nat)
    requires i < |ExpiredCidrs(s, now)|
    ensures j < |s| && s[j].key == ExpiredCidrs(s, now)[i] && Expired(s[j].val.expiration, now)
  {
    var t := s[..|s| - 1];
    if i < |ExpiredCidrs(t, now)| {
      j := ExpiredCidrsInTable(t, now, i);
    } else {
      j := |s| - 1;
    }
  }

  lemma {:induction false} TableCidrPlain(lib: NetLib, st: Store, j: nat)
    requires Mirrored(lib, st) && j < |st.cidrs|
    ensures '_' !in st.cidrs[j].key
  {
    var c := st.cidrs[j].key;
    MapGet(st.cidrs, c);
    assert CidrAt(lib, ToMap(st.cidrs), Unstamped(st.etcd), c);
  }

  lemma {:induction false} MirroredSweep(lib: NetLib, st: Store, now: int)
    requires Mirrored(lib, st)
    ensures Mirrored(lib, Sweep(lib, st, now))
  {
    var names := ExpiredIps(st.ips, now);
    forall n | n in names ensures DottedQuad(n) {
      assert IpAt(false, st.ips, Unstamped(st.etcd), n);
    }
    assert Parsed(lib, names) == names;
    MirroredForgetAll(lib, st, names);
    var cidrs := ExpiredCidrs(st.cidrs, now);
    forall i | 0 <= i < |cidrs| ensures '_' !in cidrs[i] {
      var j := ExpiredCidrsInTable(st.cidrs, now, i);
      TableCidrPlain(lib, st, j);
    }
    MirroredSweepCidrs(lib, SweepIps(lib, st, names), cidrs);
  }

  // ---- Handlers -----------------------------------------------------------

  lemma {:induction false} MirroredPutIp(lib: NetLib, st: Store, ipstr: string, q: PutQuery, now: int, firstSeen: int)
    requires Mirrored(lib, st) && DottedQuad(ipstr)
    ensures Mirrored(lib, PutIpAs(lib, st, ipstr, q, now, firstSeen))
  {
    DottedParse(ipstr);
    if QueryOk(q) {
      MirroredWriteIp(lib, st, Parse(ipstr), NewEntry(ipstr, q, now, firstSeen));
    }
  }

  lemma {:induction false} MirroredDropIp(lib: NetLib, st: Store, ipstr: string)
    requires Mirrored(lib, st) && DottedQuad(ipstr)
    ensures Mirrored(lib, DropIp(lib, st, ipstr))
  {
    DottedParse(ipstr);
    MirroredForget(lib, st, Parse(ipstr));
  }

  lemma {:induction false} MirroredPutNet(lib: NetLib, st: Store, text: string, q: PutQuery, now: int, firstSeen: int)
    requires Lawful(lib) && Mirrored(lib, st)
    ensures Mirrored(lib, PutNetAs(lib, st, text, q, now, firstSeen))
  {
    if lib.parseCIDR(text).Some? && QueryOk(q) {
      var net := lib.parseCIDR(text).value;
      MirroredWriteCidr(lib, st, Row(lib.cidrText(net), NewBlock(net, q, now, firstSeen)));
    }
  }

  lemma {:induction false} MirroredDropNet(lib: NetLib, st: Store, text: string)
    requires Lawful(lib) && Mirrored(lib, st)
    ensures Mirrored(lib, DropNet(lib, st, text))
  {
    if lib.parseCIDR(text).Some? {
      MirroredDropCidr(lib, st, lib.cidrText(lib.parseCIDR(text).value));
    }
  }

  // ---- Restart ------------------------------------------------------------

  ghost predicate SameButRevisions(t: map<string, BlockEntry>, t': map<string, BlockEntry>) {
    t.Keys == t'.Keys && forall ip | ip in t :: Norm(false, t[ip]) == Norm(false, t'[ip])
  }

  /** etcd's state has these keys and values, with whatever revisions. */
  ghost predicate HasValues(m: map<string, KV>, etcd: map<string, Value>) {
    m.Keys == etcd.Keys && forall k | k in m :: m[k].value == etcd[k]
  }

  /** The store after a restart: both tables are what the two range reads load. */
  function Restarted(lib: NetLib, st: Store, ips: seq<RangeRow>, cidrs: seq<RangeRow>): Store {
    st.(ips := LoadIp(ips), cidrs := LoadSlice(lib, cidrs))
  }

  /** The rows are what range reads of this etcd return. */
  ghost predicate ReadFrom(etcd: map<string, Value>, m: map<string, KV>, ips: seq<RangeRow>, cidrs: seq<RangeRow>) {
    HasValues(m, etcd) && Enumerates(ips, m, RBL_PREFIX_SCAN) && Enumerates(cidrs, m, CIDR_PREFIX_SCAN)
  }

  lemma {:induction false} UnstampedIps(t: map<string, BlockEntry>, m: map<string, KV>, etcd: map<string, Value>)
    requires HasValues(m, etcd) && IpMirror(true, t, m)
    ensures IpMirror(false, t, Unstamped(etcd))
  {
    forall ip ensures IpAt(false, t, Unstamped(etcd), ip) {
      assert IpAt(true, t, m, ip);
    }
  }

  lemma {:induction false} UnstampedCidrs(lib: NetLib, t: map<string, CIDRBlock>, m: map<string, KV>, etcd: map<string, Value>)
    requires HasValues(m, etcd) && CidrMirror(lib, t, m)
    ensures CidrMirror(lib, t, Unstamped(etcd))
  {
    forall c ensures CidrAt(lib, t, Unstamped(etcd), c) {
      assert CidrAt(lib, t, m, c);
    }
  }

  /** A restart keeps the tables in step with etcd. */
  lemma {:induction false} MirroredRestart(
    lib: NetLib, st: Store, m: map<string, KV>, ips: seq<RangeRow>, cidrs: seq<RangeRow>)
    requires Mirrored(lib, st) && ReadFrom(st.etcd, m, ips, cidrs)
    ensures Mirrored(lib, Restarted(lib, st, ips, cidrs))
  {
    LoadIpOf(ips, m);
    UnstampedIps(LoadIp(ips), m, st.etcd);
    LoadSliceMap(lib, cidrs);
    LoadCidrOf(lib, cidrs, m);
    assert Decodable(m) == m;
    UnstampedCidrs(lib, LoadCidr(lib, cidrs), m, st.etcd);
  }

  lemma {:induction false} SameIps(t: map<string, BlockEntry>, t': map<string, BlockEntry>, m: map<string, KV>)
    requires IpMirror(false, t, m) && IpMirror(false, t', m)
    ensures SameButRevisions(t, t')
  {
    forall ip ensures (ip in t <==> ip in t') && (ip in t ==> Norm(false, t[ip]) == Norm(false, t'[ip])) {
      assert IpAt(false, t, m, ip) && IpAt(false, t', m, ip);
    }
  }

  /** Range rows read from an etcd that the tables mirror load back to the same tables. */
  lemma {:induction false} RestartRebuilds(
    lib: NetLib, st: Store, m: map<string, KV>, ips: seq<RangeRow>, cidrs: seq<RangeRow>)
    requires Mirrored(lib, st) && ReadFrom(st.etcd, m, ips, cidrs)
    ensures SameButRevisions(LoadIp(ips), st.ips)
    ensures Distinct(LoadSlice(lib, cidrs)) && ToMap(LoadSlice(lib, cidrs)) == ToMap(st.cidrs)
  {
    MirroredRestart(lib, st, m, ips, cidrs);
    SameIps(LoadIp(ips), st.ips, Unstamped(st.etcd));
    CidrMirrorUnique(lib, ToMap(LoadSlice(lib, cidrs)), ToMap(st.cidrs), Unstamped(st.etcd));
  }

  /** No address key is loaded back under text that holds a colon. */
  lemma {:induction false} LastFourNoColon(ip: IP)
    ensures LastFour(RblKey(ip)).Some? && ':' !in LastFour(RblKey(ip)).value
  {
    match ip
    case V4(n) =>
      LastFourRbl4(n);
      DottedChars(n);
    case V6(b) => IpFromRblKey6(b);
  }

  lemma {:induction false} LoadNoColon(rows: seq<RangeRow>)
    requires forall i | 0 <= i < |rows| :: LastFour(rows[i].key).Some? && ':' !in LastFour(rows[i].key).value
    ensures forall ip | ip in LoadIp(rows) :: ':' !in ip
  {
    if rows != [] {
      var init := rows[..|rows| - 1];
      forall i | 0 <= i < |init| ensures LastFour(init[i].key).Some? && ':' !in LastFour(init[i].key).value {
        assert init[i] == rows[i];
      }
      LoadNoColon(init);
      assert LastFour(rows[|rows| - 1].key).Some?;
    }
  }

  lemma {:induction false} RowNoColon(k: string, ip: IP)
    requires HasPrefix(k, RBL_PREFIX_SCAN) && (KnownKey(k) || k == RblKey(ip) || k == ReverseKey(ip))
    ensures LastFour(k).Some? && ':' !in LastFour(k).value
  {
    KeyPrefixes(ip, "");
    ScanIsRbl(k);
    if k == RblKey(ip) {
      LastFourNoColon(ip);
    } else {
      ScanKeys(k);
      var n: U32 :| IsRblKey(k, n);
      LastFourNoColon(V4(n));
    }
  }

  lemma {:induction false} ScanIsRbl(k: string)
    requires HasPrefix(k, RBL_PREFIX_SCAN)
    ensures HasPrefix(k, RBL_PREFIX)
  {
    PrefixFacts();
    assert k[..31] == RBL_PREFIX_SCAN[..31] == RBL_PREFIX;
  }

  /** After an accepted PUT into any mirrored store, a restart gives the table back exactly for dotted quads. */
  lemma {:induction false} RestartAfterPutIff(
    lib: NetLib, st: Store, ipstr: string, q: PutQuery, now: int,
    m: map<string, KV>, ips: seq<RangeRow>, cidrs: seq<RangeRow>)
    requires Lawful(lib) && Mirrored(lib, st) && ParseIP(lib, ipstr).Some? && QueryOk(q)
    requires ReadFrom(PutIp(lib, st, ipstr, q, now).etcd, m, ips, cidrs)
    ensures SameButRevisions(LoadIp(ips), PutIp(lib, st, ipstr, q, now).ips) <==> DottedQuad(ipstr)
  {
    var ip := ParseIP(lib, ipstr).value;
    if DottedQuad(ipstr) {
      MirroredPutIp(lib, st, ipstr, q, now, FirstSeen(LookupIp(st.ips, ipstr, now), now));
      RestartRebuilds(lib, PutIp(lib, st, ipstr, q, now), m, ips, cidrs);
    } else {
      forall i | 0 <= i < |ips| ensures LastFour(ips[i].key).Some? && ':' !in LastFour(ips[i].key).value {
        assert ips[i] in ips;
        RowNoColon(ips[i].key, ip);
      }
      LoadNoColon(ips);
      assert ':' in ipstr && ipstr in PutIp(lib, st, ipstr, q, now).ips;
    }
  }

  // ---- IPv6 ---------------------------------------------------------------

  /** A blocked IPv6 address whose last nibbles are decimal comes back from a restart as an IPv4 address. */
  lemma {:induction false} RestartReadsIPv4(
    lib: NetLib, st: Store, ipstr: string, b: Bytes16, q: PutQuery, now: int,
    m: map<string, KV>, ips: seq<RangeRow>, cidrs: seq<RangeRow>)
    requires ParseIP(lib, ipstr) == Some(V6(b)) && QueryOk(q) && DecimalTail(b)
    requires ReadFrom(PutIp(lib, st, ipstr, q, now).etcd, m, ips, cidrs)
    ensures Dotted(TailAddress(b)) in LoadIp(ips)
  {
    KeyPrefixes(V6(b), "");
    IpFromRblKey6(b);
    LiveIsLoaded(ips, m, RblKey(V6(b)));
  }

  function Stamp(etcd: map<string, Value>): map<string, KV> {
    map k | k in etcd :: KV(etcd[k], 2, 2)
  }

  /** Of two keys, a range read returns the one under its prefix. */
  lemma {:induction false} OneRow(m: map<string, KV>, a: string, b: string, prefix: string)
    requires m.Keys == {a, b} && !HasPrefix(b, prefix)
    ensures if HasPrefix(a, prefix) then Enumerates([Row(a, m[a])], m, prefix) else Enumerates([], m, prefix)
  {
  }

  /** What range reads return of an etcd that holds one address. */
  lemma {:induction false} ReadOne(ip: IP, u: Value, v: Value)
    ensures var etcd := map[RblKey(ip) := u][ReverseKey(ip) := v];
            ReadFrom(etcd, Stamp(etcd), [Row(RblKey(ip), KV(u, 2, 2))], [])
  {
    var a, b := RblKey(ip), ReverseKey(ip);
    KeyPrefixes(ip, "");
    PairKeysApart(ip, ip);
    NotScanned(b);
    NotScanned(a);
    ReadOneOf(a, b, u, v);
  }

  lemma {:induction false} ReadOneOf(a: string, b: string, u: Value, v: Value)
    requires a != b && HasPrefix(a, RBL_PREFIX_SCAN) && !HasPrefix(b, RBL_PREFIX_SCAN)
    requires !HasPrefix(a, CIDR_PREFIX_SCAN) && !HasPrefix(b, CIDR_PREFIX_SCAN)
    ensures var etcd := map[a := u][b := v]; ReadFrom(etcd, Stamp(etcd), [Row(a, KV(u, 2, 2))], [])
  {
    var m := Stamp(map[a := u][b := v]);
    assert m.Keys == {a, b};
    OneRow(m, a, b, RBL_PREFIX_SCAN);
    OneRow(m, a, b, CIDR_PREFIX_SCAN);
  }

  lemma {:induction false} PrefixTrans(k: string, p: string, q: string)
    requires HasPrefix(p, q)
    ensures HasPrefix(k, p) ==> HasPrefix(k, q)
  {
    if HasPrefix(k, p) {
      assert q == p[..|q|] == k[..|q|];
    }
  }

  lemma {:induction false} NotScanned(k: string)
    ensures !HasPrefix(k, RBL_PREFIX) ==> !HasPrefix(k, RBL_PREFIX_SCAN) && !HasPrefix(k, CIDR_PREFIX_SCAN)
    ensures !HasPrefix(k, CIDR_PREFIX) ==> !HasPrefix(k, CIDR_PREFIX_SCAN)
  {
    PrefixFacts();
    PrefixTrans(k, RBL_PREFIX_SCAN, RBL_PREFIX);
    PrefixTrans(k, CIDR_PREFIX_SCAN, CIDR_PREFIX);
    PrefixTrans(k, CIDR_PREFIX, RBL_PREFIX);
  }

  /** The store after blocking one address in an empty one, and the rows that a restart then reads. */
  function Alone(lib: NetLib, ipstr: string, q: PutQuery, now: int): Store {
    PutIp(lib, Store(false, map[], [], map[]), ipstr, q, now)
  }

  function RowsOf(etcd: map<string, Value>, k: string): seq<RangeRow> {
    if k in etcd then [Row(k, KV(etcd[k], 2, 2))] else []
  }

  lemma {:induction false} ReadAlone(lib: NetLib, ipstr: string, ip: IP, q: PutQuery, now: int)
    requires ParseIP(lib, ipstr) == Some(ip) && QueryOk(q)
    ensures var etcd := Alone(lib, ipstr, q, now).etcd; ReadFrom(etcd, Stamp(etcd), RowsOf(etcd, RblKey(ip)), [])
    ensures ipstr in Alone(lib, ipstr, q, now).ips
  {
    var etcd := Alone(lib, ipstr, q, now).etcd;
    PairKeysApart(ip, ip);
    ReadOne(ip, etcd[RblKey(ip)], etcd[ReverseKey(ip)]);
    assert etcd == map[RblKey(ip) := etcd[RblKey(ip)]][ReverseKey(ip) := etcd[ReverseKey(ip)]];
  }

  /** An IPv6 address blocked alone is gone after a restart. */
  lemma {:induction false} IPv6Lost(lib: NetLib, ipstr: string, b: Bytes16, q: PutQuery, now: int)
    requires Lawful(lib) && ParseIP(lib, ipstr) == Some(V6(b)) && QueryOk(q)
    ensures var st := Alone(lib, ipstr, q, now);
            var ips := RowsOf(st.etcd, RblKey(V6(b)));
            && ReadFrom(st.etcd, Stamp(st.etcd), ips, []) && !SameButRevisions(LoadIp(ips), st.ips)
            && (DecimalTail(b) ==> Dotted(TailAddress(b)) in LoadIp(ips))
  {
    var empty, etcd := Store(false, map[], [], map[]), Alone(lib, ipstr, q, now).etcd;
    var ips := RowsOf(etcd, RblKey(V6(b)));
    EmptyMirrors(lib, false);
    assert Unstamped(map[]) == map[];
    ReadAlone(lib, ipstr, V6(b), q, now);
    RestartAfterPutIff(lib, empty, ipstr, q, now, Stamp(etcd), ips, []);
    if DecimalTail(b) {
      RestartReadsIPv4(lib, empty, ipstr, b, q, now, Stamp(etcd), ips, []);
    }
  }

  /** For one: "::", in whose place 0.0.0.0 is blocked. */
  lemma {:induction false} UnspecifiedMoves(q: PutQuery, now: int)
    requires QueryOk(q)
    ensures var st := Alone(IPv4Net.IPV6_LIB, "::", q, now);
            var ips := RowsOf(st.etcd, RblKey(V6(IPv4Net.ZERO16)));
            && ReadFrom(st.etcd, Stamp(st.etcd), ips, []) && !SameButRevisions(LoadIp(ips), st.ips)
            && Dotted(0) in LoadIp(ips)
  {
    IPv4Net.IPv6LibLawful();
    assert DecimalTail(IPv4Net.ZERO16) && TailAddress(IPv4Net.ZERO16) == 0;
    IPv6Lost(IPv4Net.IPV6_LIB, "::", IPv4Net.ZERO16, q, now);
  }
}
