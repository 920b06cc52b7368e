/** The tables and etcd under the request handlers and the expiry code, one completed operation at a time. */
module Store {
  import opened Text
  import opened IPv4Text
  import opened Keys
  import opened SliceMap
  import opened Records
  import opened Replay

  datatype Store = Store(
    multi: bool, ips: map<string, BlockEntry>, cidrs: seq<CIDREntry>, etcd: map<string, Value>)

  /** An optional request parameter that the library parses: not given, not parseable, or its value. */
  datatype Param = Absent | Bad | Given(value: int)

  /** The query of a PUT request; an empty string is a missing parameter. */
  datatype PutQuery = PutQuery(
    unknown: bool, source: string, scenario: string, action: string, returnCode: string,
    lastSeen: Param, duration: Param, expiration: Param)

  predicate QueryOk(q: PutQuery) {
    && !q.unknown && (q.duration.Absent? || q.expiration.Absent?)
    && !q.lastSeen.Bad? && !q.duration.Bad? && !q.expiration.Bad?
  }

  function Or(v: string, default: string): string {
    if v != "" then v else default
  }

  function OrTime(p: Param, default: int): int {
    if p.Given? then p.value else default
  }

  /** What an accepted query says of an entry. */
  datatype Fields = Fields(
    source: string, scenario: string, action: string, returnCode: U32, lastSeen: int, expiration: int)

  function FieldsOf(q: PutQuery, now: int): Fields {
    Fields(Or(q.source, "openbl"), q.scenario, Or(q.action, "ban"), Parse(Or(q.returnCode, DEFAULT_RETURN)),
           OrTime(q.lastSeen, now),
           OrTime(q.expiration, if q.duration.Given? then now + q.duration.value else 0))
  }

  function NewEntry(ip: string, q: PutQuery, now: int, firstSeen: int): BlockEntry {
    var f := FieldsOf(q, now);
    BlockEntry(ip, f.source, f.scenario, f.action, 0, 0, firstSeen, f.lastSeen, f.expiration, f.returnCode)
  }

  function NewBlock(net: Network, q: PutQuery, now: int, firstSeen: int): CIDRBlock {
    var f := FieldsOf(q, now);
    CIDRBlock(net, f.source, f.scenario, f.action, f.returnCode, firstSeen, f.lastSeen, f.expiration)
  }

  /** The table entry a reader sees: absent once expired. */
  function LookupIp(ips: map<string, BlockEntry>, ip: string, now: int): Option<BlockEntry> {
    if ip in ips && !Expired(ips[ip].expiration, now) then Some(ips[ip]) else None
  }

  function FirstSeen(existing: Option<BlockEntry>, now: int): int {
    if existing.Some? then existing.value.firstSeen else now
  }

  function FirstSeenCidr(s: seq<CIDREntry>, cidr: string, now: int): int {
    var i := Index(s, cidr);
    if i < |s| then s[i].val.firstSeen else now
  }

  // ---- Single writes ------------------------------------------------------

  function WriteIp(st: Store, ipstr: string, ip: IP, e: BlockEntry): Store {
    st.(etcd := st.etcd[RblKey(ip) := Block(RecordOf(e))][ReverseKey(ip) := Ptr(REVERSE_HOST, PTR_TTL)],
        ips := if st.multi then st.ips else st.ips[ipstr := e])
  }

  function WriteCidr(st: Store, e: CIDREntry): Store {
    st.(etcd := st.etcd[CidrToEtcdKey(e.key) := Block(RecordOfCIDR(e.val))],
        cidrs := if st.multi then st.cidrs else Upserted(st.cidrs, e))
  }

  function DropCidr(st: Store, cidr: string): Store {
    st.(etcd := st.etcd - {CidrToEtcdKey(cidr)},
        cidrs := if st.multi then st.cidrs else Removed(st.cidrs, cidr))
  }

  function Forget(etcd: map<string, Value>, ip: IP): map<string, Value> {
    etcd - {RblKey(ip), ReverseKey(ip)}
  }

  // ---- Operations ---------------------------------------------------------

  /** An accepted PUT writes its entry with the first-seen time that its lookup gave. */
  function PutIpAs(lib: NetLib, st: Store, ipstr: string, q: PutQuery, now: int, firstSeen: int): Store {
    match ParseIP(lib, ipstr)
    case None => st
    case Some(ip) => if QueryOk(q) then WriteIp(st, ipstr, ip, NewEntry(ipstr, q, now, firstSeen)) else st
  }

  function PutIp(lib: NetLib, st: Store, ipstr: string, q: PutQuery, now: int): Store {
    PutIpAs(lib, st, ipstr, q, now, FirstSeen(LookupIp(st.ips, ipstr, now), now))
  }

  /** A DELETE request, and equally the completion of a lazily queued expiry. */
  function DropIp(lib: NetLib, st: Store, ipstr: string): Store {
    match ParseIP(lib, ipstr)
    case None => st
    case Some(ip) => st.(etcd := Forget(st.etcd, ip), ips := if st.multi then st.ips else st.ips - {ipstr})
  }

  function PutNetAs(lib: NetLib, st: Store, text: string, q: PutQuery, now: int, firstSeen: int): Store {
    match lib.parseCIDR(text)
    case None => st
    case Some(net) =>
      if QueryOk(q) then WriteCidr(st, Row(lib.cidrText(net), NewBlock(net, q, now, firstSeen))) else st
  }

  function PutNet(lib: NetLib, st: Store, text: string, q: PutQuery, now: int): Store {
    match lib.parseCIDR(text)
    case None => st
    case Some(net) => PutNetAs(lib, st, text, q, now, FirstSeenCidr(st.cidrs, lib.cidrText(net), now))
  }

  function DropNet(lib: NetLib, st: Store, text: string): Store {
    match lib.parseCIDR(text)
    case None => st
    case Some(net) => DropCidr(st, lib.cidrText(net))
  }

  function ExpiredIps(ips: map<string, BlockEntry>, now: int): set<string> {
    set ip | ip in ips && Expired(ips[ip].expiration, now)
  }

  function Parsed(lib: NetLib, names: set<string>): set<string> {
    set n | n in names && ParseIP(lib, n).Some?
  }

  function AddressOf(lib: NetLib, n: string): IP {
    match ParseIP(lib, n)
    case Some(ip) => ip
    case None => V4(0)
  }

  /** The forward and reverse keys of the names that parse. */
  function AddressKeys(lib: NetLib, names: set<string>): set<string> {
    (set n | n in Parsed(lib, names) :: RblKey(AddressOf(lib, n)))
    + (set n | n in Parsed(lib, names) :: ReverseKey(AddressOf(lib, n)))
  }

  /** The sweep's first half removes the collected addresses from etcd and, in either mode, from memory. */
  function SweepIps(lib: NetLib, st: Store, names: set<string>): Store {
    st.(etcd := st.etcd - AddressKeys(lib, names), ips := st.ips - Parsed(lib, names))
  }

  function ExpiredCidrs(s: seq<CIDREntry>, now: int): seq<string> {
    if s == [] then []
    else ExpiredCidrs(s[..|s| - 1], now)
         + if Expired(s[|s| - 1].val.expiration, now) then [s[|s| - 1].key] else []
  }

  function SweepCidrs(st: Store, names: seq<string>): Store {
    if names == [] then st
    else
      var r := SweepCidrs(st, names[..|names| - 1]);
      var c := names[|names| - 1];
      r.(etcd := r.etcd - {CidrToEtcdKey(c)}, cidrs := Removed(r.cidrs, c))
  }

  function Sweep(lib: NetLib, st: Store, now: int): Store {
    SweepCidrs(SweepIps(lib, st, ExpiredIps(st.ips, now)), ExpiredCidrs(st.cidrs, now))
  }

  // ---- Forward and reverse records stay paired ----------------------------

  ghost predicate PairedAt(etcd: map<string, Value>, ip: IP) {
    RblKey(ip) in etcd <==> ReverseKey(ip) in etcd
  }

  /** etcd holds the forward record of an address exactly when it holds the reverse record. */
  ghost predicate Paired(etcd: map<string, Value>) {
    forall ip: IP :: PairedAt(etcd, ip)
  }

  lemma {:induction false} PairKeysApart(x: IP, y: IP)
    ensures RblKey(x) == RblKey(y) <==> x == y
    ensures ReverseKey(x) == ReverseKey(y) <==> x == y
    ensures RblKey(x) != ReverseKey(y) && ReverseKey(x) != RblKey(y)
  {
    AddressKeysInjective(x, y);
    KeysDisjoint(x, y, "");
    KeysDisjoint(y, x, "");
  }

  lemma {:induction false} PairedWrite(etcd: map<string, Value>, ip: IP, u: Value, v: Value)
    requires Paired(etcd)
    ensures Paired(etcd[RblKey(ip) := u][ReverseKey(ip) := v])
  {
    var etcd' := etcd[RblKey(ip) := u][ReverseKey(ip) := v];
    forall a: IP ensures PairedAt(etcd', a) {
      assert PairedAt(etcd, a);
      PairKeysApart(a, ip);
    }
  }

  lemma {:induction false} PairedForget(etcd: map<string, Value>, ip: IP)
    requires Paired(etcd)
    ensures Paired(Forget(etcd, ip))
  {
    var etcd' := Forget(etcd, ip);
    forall a: IP ensures PairedAt(etcd', a) {
      assert PairedAt(etcd, a);
      PairKeysApart(a, ip);
    }
  }

  lemma {:induction false} PairedForgetAll(lib: NetLib, etcd: map<string, Value>, names: set<string>)
    requires Paired(etcd)
    ensures Paired(etcd - AddressKeys(lib, names))
  {
    var keys := AddressKeys(lib, names);
    var etcd' := etcd - keys;
    forall a: IP ensures PairedAt(etcd', a) {
      assert PairedAt(etcd, a);
      InAddressKeys(lib, names, a);
    }
  }

  lemma {:induction false} InAddressKeys(lib: NetLib, names: set<string>, a: IP)
    ensures RblKey(a) in AddressKeys(lib, names) <==> exists n :: n in names && ParseIP(lib, n) == Some(a)
    ensures ReverseKey(a) in AddressKeys(lib, names) <==> exists n :: n in names && ParseIP(lib, n) == Some(a)
  {
    var keys := AddressKeys(lib, names);
    if n :| n in names && ParseIP(lib, n) == Some(a) {
      assert n in Parsed(lib, names);
      assert RblKey(a) in keys && ReverseKey(a) in keys;
    } else {
      forall n | n in Parsed(lib, names) ensures AddressOf(lib, n) != a {
      }
      forall n | n in Parsed(lib, names)
        ensures RblKey(AddressOf(lib, n)) != RblKey(a) && ReverseKey(AddressOf(lib, n)) != RblKey(a)
        ensures RblKey(AddressOf(lib, n)) != ReverseKey(a) && ReverseKey(AddressOf(lib, n)) != ReverseKey(a)
      {
        PairKeysApart(a, AddressOf(lib, n));
      }
    }
  }

  /** Writes at CIDR keys leave every address key as it was. */
  lemma {:induction false} PairedCidr(etcd: map<string, Value>, cidr: string, v: Value)
    requires Paired(etcd)
    ensures Paired(etcd[CidrToEtcdKey(cidr) := v]) && Paired(etcd - {CidrToEtcdKey(cidr)})
  {
    var k := CidrToEtcdKey(cidr);
    var e1, e2 := etcd[k := v], etcd - {k};
    forall a: IP ensures PairedAt(e1, a) && PairedAt(e2, a) {
      assert PairedAt(etcd, a);
      KeysDisjoint(a, a, cidr);
    }
  }

  lemma {:induction false} PairedSweepCidrs(st: Store, names: seq<string>)
    requires Paired(st.etcd)
    ensures Paired(SweepCidrs(st, names).etcd)
  {
    if names != [] {
      PairedSweepCidrs(st, names[..|names| - 1]);
      PairedCidr(SweepCidrs(st, names[..|names| - 1]).etcd, names[|names| - 1], Malformed);
    }
  }

  // ---- What a sweep removes -----------------------------------------------

  lemma {:induction false} ExpiredCidrsAre(s: seq<CIDREntry>, now: int, c: string)
    requires Distinct(s)
    ensures c in ExpiredCidrs(s, now) <==> c in ToMap(s) && Expired(ToMap(s)[c].expiration, now)
  {
    if s != [] {
      var t, e := s[..|s| - 1], s[|s| - 1];
      ExpiredCidrsAre(t, now, c);
      MapGet(t, e.key);
    }
  }

  lemma {:induction false} SweepCidrsMap(st: Store, names: seq<string>)
    requires Distinct(st.cidrs)
    ensures var st' := SweepCidrs(st, names);
            && st'.ips == st.ips && Distinct(st'.cidrs)
            && ToMap(st'.cidrs) == ToMap(st.cidrs) - set n | n in names
  {
    if names != [] {
      var init, c := names[..|names| - 1], names[|names| - 1];
      SweepCidrsMap(st, init);
      RemoveMap(SweepCidrs(st, init).cidrs, c);
      assert forall n :: n in names <==> n in init || n == c;
    }
  }

  /** A sweep takes exactly the expired entries out of both tables and leaves the others as they were. */
  lemma {:induction false} SweepExact(lib: NetLib, st: Store, now: int, k: string)
    requires Distinct(st.cidrs)
    ensures var st' := Sweep(lib, st, now);
            && Distinct(st'.cidrs)
            && (if k in st.ips && 0 < st.ips[k].expiration <= now && ParseIP(lib, k).Some?
                then k !in st'.ips else SameAt(st.ips, st'.ips, k))
            && (if k in ToMap(st.cidrs) && 0 < ToMap(st.cidrs)[k].expiration <= now
                then k !in ToMap(st'.cidrs) else SameAt(ToMap(st.cidrs), ToMap(st'.cidrs), k))
  {
    SweepCidrsMap(SweepIps(lib, st, ExpiredIps(st.ips, now)), ExpiredCidrs(st.cidrs, now));
    ExpiredCidrsAre(st.cidrs, now, k);
  }
}
