/** What each request, decision and sweep leaves in the tables and in etcd, in either mode, on the request's own values. */
module Effects {
  import opened Text
  import opened IPv4Text
  import opened Keys
  import opened SliceMap
  import opened Records
  import opened Replay
  import opened Store
  import opened CrowdSec
  import Service

  // ---- PUT requests -------------------------------------------------------

  /** No unknown parameter, no unparseable time, and not both a duration and an expiration. */
  ghost predicate Acceptable(q: PutQuery) {
    !(q.unknown || q.lastSeen == Bad || q.duration == Bad || q.expiration == Bad
      || (q.duration != Absent && q.expiration != Absent))
  }

  /** The texts of an accepted request over their defaults. */
  ghost predicate TextsOf(q: PutQuery, source: string, scenario: string, action: string, returnCode: U32) {
    && source == (if q.source == "" then "openbl" else q.source)
    && scenario == q.scenario
    && action == (if q.action == "" then "ban" else q.action)
    && returnCode == (if q.returnCode == "" then 0x7F00_0002 else Parse(q.returnCode))
  }

  /** The times of an accepted request: a duration counts from the clock, and without either time a block is for good. */
  ghost predicate TimesOf(q: PutQuery, now: int, lastSeen: int, expiration: int) {
    && lastSeen == (match q.lastSeen case Given(t) => t case _ => now)
    && (q.duration.Given? ==> expiration == now + q.duration.value)
    && (q.expiration.Given? ==> expiration == q.expiration.value)
    && (q.duration.Absent? && q.expiration.Absent? ==> expiration == 0)
  }

  ghost predicate Requested(q: PutQuery, now: int, rec: BlockRecord) {
    && rec.version == 1 && rec.ttl == 120 && DottedQuad(rec.host)
    && TextsOf(q, rec.source, rec.scenario, rec.action, Parse(rec.host))
    && TimesOf(q, now, rec.lastSeen, rec.expiration)
  }

  lemma {:induction false} FieldsRequested(q: PutQuery, now: int)
    requires Acceptable(q)
    ensures QueryOk(q)
    ensures var f := FieldsOf(q, now);
            TextsOf(q, f.source, f.scenario, f.action, f.returnCode) && TimesOf(q, now, f.lastSeen, f.expiration)
  {
    Service.DefaultReturnText();
  }

  lemma {:induction false} RecordRequested(ip: string, net: Network, q: PutQuery, now: int, firstSeen: int)
    requires Acceptable(q)
    ensures Requested(q, now, RecordOf(NewEntry(ip, q, now, firstSeen)))
    ensures Requested(q, now, RecordOfCIDR(NewBlock(net, q, now, firstSeen)))
  {
    FieldsRequested(q, now);
    DottedIsQuad(FieldsOf(q, now).returnCode);
    ParseDotted(FieldsOf(q, now).returnCode);
  }

  /** The first-seen time to keep: that of an entry which has not expired, or the clock. */
  ghost function Kept(ips: map<string, BlockEntry>, ip: string, now: int): int {
    if ip in ips && (ips[ip].expiration <= 0 || now < ips[ip].expiration) then ips[ip].firstSeen else now
  }

  ghost function KeptNet(cidrs: map<string, CIDRBlock>, c: string, now: int): int {
    if c in cidrs then cidrs[c].firstSeen else now
  }

  /** Two keys of etcd may have changed, and no other. */
  ghost predicate OnlyAt(etcd: map<string, Value>, etcd': map<string, Value>, a: string, b: string) {
    forall k | k != a && k != b :: SameAt(etcd, etcd', k)
  }

  /** One entry of a table may have changed, to one of which `p` holds, in single-instance mode only. */
  ghost predicate OnlyEntry<V(!new)>(multi: bool, t: map<string, V>, t': map<string, V>, k: string, p: V -> bool) {
    if multi then t' == t
    else k in t' && p(t'[k]) && forall x | x != k :: SameAt(t, t', x)
  }

  lemma {:induction false} OnlyEntrySet<V(!new)>(multi: bool, t: map<string, V>, k: string, v: V, p: V -> bool)
    requires p(v)
    ensures OnlyEntry(multi, t, if multi then t else t[k := v], k, p)
  {
  }

  ghost predicate AddressRequested(q: PutQuery, now: int, k: string, firstSeen: int, e: BlockEntry) {
    && e.ip == k && e.firstSeen == firstSeen
    && TextsOf(q, e.source, e.scenario, e.action, e.returnCode) && TimesOf(q, now, e.lastSeen, e.expiration)
  }

  ghost predicate NetworkRequested(q: PutQuery, now: int, net: Network, firstSeen: int, b: CIDRBlock) {
    && b.net == net && b.firstSeen == firstSeen
    && TextsOf(q, b.source, b.scenario, b.action, b.returnCode) && TimesOf(q, now, b.lastSeen, b.expiration)
  }

  /** Writing an entry: both records, and the entry in single-instance mode; nothing else changes. */
  lemma {:induction false} WriteIpEffect(st: Store, ipstr: string, ip: IP, e: BlockEntry)
    ensures var st' := WriteIp(st, ipstr, ip, e);
            && RblKey(ip) in st'.etcd && st'.etcd[RblKey(ip)] == Block(RecordOf(e))
            && ReverseKey(ip) in st'.etcd && st'.etcd[ReverseKey(ip)] == Ptr("blocked.internal", 120)
            && OnlyAt(st.etcd, st'.etcd, RblKey(ip), ReverseKey(ip))
            && st'.multi == st.multi && st'.cidrs == st.cidrs
            && st'.ips == if st.multi then st.ips else st.ips[ipstr := e]
  {
    PairKeysApart(ip, ip);
  }

  lemma {:induction false} WriteCidrEffect(st: Store, e: CIDREntry)
    requires Distinct(st.cidrs)
    ensures var st', k := WriteCidr(st, e), CidrToEtcdKey(e.key);
            && k in st'.etcd && st'.etcd[k] == Block(RecordOfCIDR(e.val)) && OnlyAt(st.etcd, st'.etcd, k, k)
            && st'.multi == st.multi && st'.ips == st.ips && (st.multi ==> st'.cidrs == st.cidrs)
            && ToMap(st'.cidrs) == if st.multi then ToMap(st.cidrs) else ToMap(st.cidrs)[e.key := e.val]
  {
    UpsertMap(st.cidrs, e);
  }

  lemma {:induction false} PutIsWrite(lib: NetLib, st: Store, ipstr: string, ip: IP, q: PutQuery, now: int)
    requires ParseIP(lib, ipstr) == Some(ip) && Acceptable(q)
    ensures PutIp(lib, st, ipstr, q, now) == WriteIp(st, ipstr, ip, NewEntry(ipstr, q, now, Kept(st.ips, ipstr, now)))
  {
  }

  lemma {:induction false} BanIsWrite(lib: NetLib, st: Store, d: Decision, ip: IP)
    requires '/' !in d.value && ParseIP(lib, d.value) == Some(ip)
    ensures var k := IPText(lib, ip);
            CsAct(lib, st, Ban(d)) == WriteIp(st, k, ip, CsEntry(k, d, Kept(st.ips, k, d.now)))
  {
  }

  lemma {:induction false} BanNetIsWrite(lib: NetLib, st: Store, d: Decision, net: Network)
    requires '/' in d.value && lib.parseCIDR(d.value) == Some(net) && Distinct(st.cidrs)
    ensures var c := lib.cidrText(net);
            CsAct(lib, st, Ban(d)) == WriteCidr(st, Row(c, CsBlock(net, d, KeptNet(ToMap(st.cidrs), c, d.now))))
  {
    KeptNetIs(st.cidrs, lib.cidrText(net), d.now);
  }

  /** An accepted PUT leaves the requested record and its reverse record in etcd, in either mode. */
  lemma {:induction false} PutRecords(lib: NetLib, st: Store, ipstr: string, ip: IP, q: PutQuery, now: int)
    requires ParseIP(lib, ipstr) == Some(ip) && Acceptable(q)
    ensures var etcd' := PutIp(lib, st, ipstr, q, now).etcd;
            && RblKey(ip) in etcd' && etcd'[RblKey(ip)].Block? && Requested(q, now, etcd'[RblKey(ip)].rec)
            && etcd'[RblKey(ip)].rec.firstSeen == Kept(st.ips, ipstr, now)
            && ReverseKey(ip) in etcd' && etcd'[ReverseKey(ip)] == Ptr("blocked.internal", 120)
            && OnlyAt(st.etcd, etcd', RblKey(ip), ReverseKey(ip))
  {
    var e := NewEntry(ipstr, q, now, Kept(st.ips, ipstr, now));
    PutIsWrite(lib, st, ipstr, ip, q, now);
    WriteIpEffect(st, ipstr, ip, e);
    RecordRequested(ipstr, Network(ip, 0), q, now, Kept(st.ips, ipstr, now));
  }

  /** In single-instance mode it leaves the requested entry in the table, in multi-instance mode no table changes. */
  lemma {:induction false} PutEntry(lib: NetLib, st: Store, ipstr: string, ip: IP, q: PutQuery, now: int)
    requires ParseIP(lib, ipstr) == Some(ip) && Acceptable(q)
    ensures var st' := PutIp(lib, st, ipstr, q, now);
            && st'.multi == st.multi && st'.cidrs == st.cidrs
            && OnlyEntry(st.multi, st.ips, st'.ips, ipstr,
                         e => AddressRequested(q, now, ipstr, Kept(st.ips, ipstr, now), e))
  {
    var fs := Kept(st.ips, ipstr, now);
    var e := NewEntry(ipstr, q, now, fs);
    PutIsWrite(lib, st, ipstr, ip, q, now);
    WriteIpEffect(st, ipstr, ip, e);
    FieldsRequested(q, now);
    OnlyEntrySet(st.multi, st.ips, ipstr, e, e => AddressRequested(q, now, ipstr, fs, e));
  }

  /** A rejected PUT changes nothing. */
  lemma {:induction false} PutRejected(lib: NetLib, st: Store, text: string, q: PutQuery, now: int)
    ensures !Acceptable(q) || ParseIP(lib, text).None? ==> PutIp(lib, st, text, q, now) == st
    ensures !Acceptable(q) || lib.parseCIDR(text).None? ==> PutNet(lib, st, text, q, now) == st
  {
  }

  /** A block with a duration is answered exactly until the duration is over, one with an expiration until then. */
  lemma {:induction false} BlockedUntil(lib: NetLib, st: Store, ipstr: string, q: PutQuery, now: int, t: int)
    requires ParseIP(lib, ipstr).Some? && Acceptable(q) && !st.multi
    ensures var found := LookupIp(PutIp(lib, st, ipstr, q, now).ips, ipstr, t).Some?;
            && (q.duration.Given? ==> (found <==> now + q.duration.value <= 0 || t < now + q.duration.value))
            && (q.expiration.Given? ==> (found <==> q.expiration.value <= 0 || t < q.expiration.value))
            && (q.duration.Absent? && q.expiration.Absent? ==> found)
  {
    PutEntry(lib, st, ipstr, ParseIP(lib, ipstr).value, q, now);
  }

  lemma {:induction false} KeptNetIs(s: seq<CIDREntry>, c: string, now: int)
    requires Distinct(s)
    ensures FirstSeenCidr(s, c, now) == KeptNet(ToMap(s), c, now)
  {
    MapGet(s, c);
  }

  lemma {:induction false} PutNetIsWrite(lib: NetLib, st: Store, text: string, net: Network, q: PutQuery, now: int)
    requires lib.parseCIDR(text) == Some(net) && Acceptable(q) && Distinct(st.cidrs)
    ensures var c := lib.cidrText(net);
            PutNet(lib, st, text, q, now) == WriteCidr(st, Row(c, NewBlock(net, q, now, KeptNet(ToMap(st.cidrs), c, now))))
  {
    KeptNetIs(st.cidrs, lib.cidrText(net), now);
  }

  lemma {:induction false} PutNetRecord(lib: NetLib, st: Store, text: string, net: Network, q: PutQuery, now: int)
    requires lib.parseCIDR(text) == Some(net) && Acceptable(q) && Distinct(st.cidrs)
    ensures var etcd', k := PutNet(lib, st, text, q, now).etcd, CidrToEtcdKey(lib.cidrText(net));
            && k in etcd' && etcd'[k].Block? && Requested(q, now, etcd'[k].rec)
            && etcd'[k].rec.firstSeen == KeptNet(ToMap(st.cidrs), lib.cidrText(net), now)
            && OnlyAt(st.etcd, etcd', k, k)
  {
    var c := lib.cidrText(net);
    PutNetIsWrite(lib, st, text, net, q, now);
    WriteCidrEffect(st, Row(c, NewBlock(net, q, now, KeptNet(ToMap(st.cidrs), c, now))));
    RecordRequested("", net, q, now, KeptNet(ToMap(st.cidrs), c, now));
  }

  lemma {:induction false} PutNetEntry(lib: NetLib, st: Store, text: string, net: Network, q: PutQuery, now: int)
    requires lib.parseCIDR(text) == Some(net) && Acceptable(q) && Distinct(st.cidrs)
    ensures var st', c := PutNet(lib, st, text, q, now), lib.cidrText(net);
            && st'.multi == st.multi && st'.ips == st.ips && (st.multi ==> st'.cidrs == st.cidrs)
            && OnlyEntry(st.multi, ToMap(st.cidrs), ToMap(st'.cidrs), c,
                         b => NetworkRequested(q, now, net, KeptNet(ToMap(st.cidrs), c, now), b))
  {
    var c := lib.cidrText(net);
    var fs := KeptNet(ToMap(st.cidrs), c, now);
    var b := NewBlock(net, q, now, fs);
    PutNetIsWrite(lib, st, text, net, q, now);
    WriteCidrEffect(st, Row(c, b));
    FieldsRequested(q, now);
    OnlyEntrySet(st.multi, ToMap(st.cidrs), c, b, b => NetworkRequested(q, now, net, fs, b));
  }

  // ---- Deletions ----------------------------------------------------------

  /** A DELETE, and a lazy expiry, takes both records of the address out of etcd in either mode. */
  lemma {:induction false} DeleteEffect(lib: NetLib, st: Store, ipstr: string)
    ensures var st' := DropIp(lib, st, ipstr);
            && st'.multi == st.multi && st'.cidrs == st.cidrs
            && (match ParseIP(lib, ipstr)
                case None => st' == st
                case Some(ip) =>
                  && RblKey(ip) !in st'.etcd && ReverseKey(ip) !in st'.etcd
                  && OnlyAt(st.etcd, st'.etcd, RblKey(ip), ReverseKey(ip))
                  && (forall k | k != ipstr :: SameAt(st.ips, st'.ips, k))
                  && (if st.multi then st'.ips == st.ips else ipstr !in st'.ips))
  {
  }

  /** A DELETE of a network, and its lazy expiry. */
  lemma {:induction false} DeleteNetEffect(lib: NetLib, st: Store, text: string, c: string)
    requires Distinct(st.cidrs)
    ensures var st' := DropCidr(st, c);
            && st'.multi == st.multi && st'.ips == st.ips
            && CidrToEtcdKey(c) !in st'.etcd && OnlyAt(st.etcd, st'.etcd, CidrToEtcdKey(c), CidrToEtcdKey(c))
            && (forall k | k != c :: SameAt(ToMap(st.cidrs), ToMap(st'.cidrs), k))
            && (if st.multi then st'.cidrs == st.cidrs else c !in ToMap(st'.cidrs))
    ensures DropNet(lib, st, text) ==
            match lib.parseCIDR(text) case None => st case Some(net) => DropCidr(st, lib.cidrText(net))
  {
    RemoveMap(st.cidrs, c);
  }

  // ---- CrowdSec -----------------------------------------------------------

  /** The source that a decision is stored under. */
  ghost predicate DecisionSource(d: Decision, source: string) {
    source == if d.origin == "" || d.origin == "crowdsec" then "crowdsec" else "crowdsec:" + d.origin
  }

  ghost predicate Decided(d: Decision, rec: BlockRecord) {
    && rec.version == 1 && rec.ttl == 120 && rec.host == "127.0.0.2"
    && DecisionSource(d, rec.source) && rec.scenario == d.scenario && rec.action == d.kind
    && rec.lastSeen == d.now && rec.expiration == d.expiration
  }

  lemma {:induction false} RecordDecided(ip: string, net: Network, d: Decision, firstSeen: int)
    ensures Decided(d, RecordOf(CsEntry(ip, d, firstSeen))) && Decided(d, RecordOfCIDR(CsBlock(net, d, firstSeen)))
  {
    Service.DefaultReturnText();
  }

  ghost predicate DecidedEntry(
    d: Decision, source: string, scenario: string, action: string, returnCode: U32, lastSeen: int, expiration: int)
  {
    && DecisionSource(d, source) && scenario == d.scenario && action == d.kind && returnCode == 0x7F00_0002
    && lastSeen == d.now && expiration == d.expiration
  }

  ghost predicate AddressDecided(d: Decision, k: string, firstSeen: int, e: BlockEntry) {
    && e.ip == k && e.firstSeen == firstSeen
    && DecidedEntry(d, e.source, e.scenario, e.action, e.returnCode, e.lastSeen, e.expiration)
  }

  ghost predicate NetworkDecided(d: Decision, net: Network, firstSeen: int, b: CIDRBlock) {
    && b.net == net && b.firstSeen == firstSeen
    && DecidedEntry(d, b.source, b.scenario, b.action, b.returnCode, b.lastSeen, b.expiration)
  }

  lemma {:induction false} EntryDecided(ip: string, net: Network, d: Decision, firstSeen: int)
    ensures AddressDecided(d, ip, firstSeen, CsEntry(ip, d, firstSeen))
    ensures NetworkDecided(d, net, firstSeen, CsBlock(net, d, firstSeen))
  {
    Service.DefaultReturnText();
  }

  /** Applying a decision on an address leaves its records in etcd, and in single-instance mode its entry in the table. */
  lemma {:induction false} BanRecords(lib: NetLib, st: Store, d: Decision, ip: IP)
    requires '/' !in d.value && ParseIP(lib, d.value) == Some(ip)
    ensures var etcd' := CsAct(lib, st, Ban(d)).etcd;
            && RblKey(ip) in etcd' && etcd'[RblKey(ip)].Block? && Decided(d, etcd'[RblKey(ip)].rec)
            && etcd'[RblKey(ip)].rec.firstSeen == Kept(st.ips, IPText(lib, ip), d.now)
            && ReverseKey(ip) in etcd' && etcd'[ReverseKey(ip)] == Ptr("blocked.internal", 120)
            && OnlyAt(st.etcd, etcd', RblKey(ip), ReverseKey(ip))
  {
    var k := IPText(lib, ip);
    BanIsWrite(lib, st, d, ip);
    WriteIpEffect(st, k, ip, CsEntry(k, d, Kept(st.ips, k, d.now)));
    RecordDecided(k, Network(ip, 0), d, Kept(st.ips, k, d.now));
  }

  lemma {:induction false} BanEntry(lib: NetLib, st: Store, d: Decision, ip: IP)
    requires '/' !in d.value && ParseIP(lib, d.value) == Some(ip)
    ensures var st', k := CsAct(lib, st, Ban(d)), IPText(lib, ip);
            && st'.multi == st.multi && st'.cidrs == st.cidrs
            && OnlyEntry(st.multi, st.ips, st'.ips, k, e => AddressDecided(d, k, Kept(st.ips, k, d.now), e))
  {
    var k := IPText(lib, ip);
    var fs := Kept(st.ips, k, d.now);
    var e := CsEntry(k, d, fs);
    BanIsWrite(lib, st, d, ip);
    WriteIpEffect(st, k, ip, e);
    EntryDecided(k, Network(ip, 0), d, fs);
    OnlyEntrySet(st.multi, st.ips, k, e, e => AddressDecided(d, k, fs, e));
  }

  lemma {:induction false} BanNetRecord(lib: NetLib, st: Store, d: Decision, net: Network)
    requires '/' in d.value && lib.parseCIDR(d.value) == Some(net) && Distinct(st.cidrs)
    ensures var etcd', k := CsAct(lib, st, Ban(d)).etcd, CidrToEtcdKey(lib.cidrText(net));
            && k in etcd' && etcd'[k].Block? && Decided(d, etcd'[k].rec)
            && etcd'[k].rec.firstSeen == KeptNet(ToMap(st.cidrs), lib.cidrText(net), d.now)
            && OnlyAt(st.etcd, etcd', k, k)
  {
    var c := lib.cidrText(net);
    BanNetIsWrite(lib, st, d, net);
    WriteCidrEffect(st, Row(c, CsBlock(net, d, KeptNet(ToMap(st.cidrs), c, d.now))));
    RecordDecided("", net, d, KeptNet(ToMap(st.cidrs), c, d.now));
  }

  lemma {:induction false} BanNetEntry(lib: NetLib, st: Store, d: Decision, net: Network)
    requires '/' in d.value && lib.parseCIDR(d.value) == Some(net) && Distinct(st.cidrs)
    ensures var st', c := CsAct(lib, st, Ban(d)), lib.cidrText(net);
            && st'.multi == st.multi && st'.ips == st.ips && (st.multi ==> st'.cidrs == st.cidrs)
            && OnlyEntry(st.multi, ToMap(st.cidrs), ToMap(st'.cidrs), c,
                         b => NetworkDecided(d, net, KeptNet(ToMap(st.cidrs), c, d.now), b))
  {
    var c := lib.cidrText(net);
    var fs := KeptNet(ToMap(st.cidrs), c, d.now);
    var b := CsBlock(net, d, fs);
    BanNetIsWrite(lib, st, d, net);
    WriteCidrEffect(st, Row(c, b));
    EntryDecided("", net, d, fs);
    OnlyEntrySet(st.multi, ToMap(st.cidrs), c, b, b => NetworkDecided(d, net, fs, b));
  }

  /** Removing a decision takes the records of its canonical key out of etcd in either mode. */
  lemma {:induction false} UnbanEffect(lib: NetLib, st: Store, d: Decision)
    requires Distinct(st.cidrs)
    ensures var st' := CsAct(lib, st, Unban(d));
            && st'.multi == st.multi && (st.multi ==> st'.ips == st.ips && st'.cidrs == st.cidrs)
            && ('/' in d.value ==> st' == DropNet(lib, st, d.value))
            && ('/' !in d.value && ParseIP(lib, d.value).None? ==> st' == st)
            && ('/' !in d.value && ParseIP(lib, d.value).Some? ==>
                  var ip := ParseIP(lib, d.value).value;
                  && RblKey(ip) !in st'.etcd && ReverseKey(ip) !in st'.etcd
                  && OnlyAt(st.etcd, st'.etcd, RblKey(ip), ReverseKey(ip)) && st'.cidrs == st.cidrs
                  && (!st.multi ==> st'.ips == st.ips - {IPText(lib, ip)}))
  {
  }

  /** CrowdSec's own entries are those whose source begins with its name. */
  ghost predicate ByCrowdSec(source: string) {
    |source| >= 8 && source[..8] == "crowdsec"
  }

  /** An address or network entry that CrowdSec no longer lists. */
  ghost predicate Unlisted(source: string, k: string, values: set<string>) {
    ByCrowdSec(source) && k !in values
  }

  /** The etcd keys of a set of names, as far as they parse, and of a set of networks. */
  ghost predicate KeyOf(lib: NetLib, names: set<string>, cidrs: set<string>, k: string) {
    || (exists n :: n in names && ParseIP(lib, n).Some?
                    && (k == RblKey(ParseIP(lib, n).value) || k == ReverseKey(ParseIP(lib, n).value)))
    || (exists c :: c in cidrs && k == CidrToEtcdKey(c))
  }

  lemma {:induction false} AddressKeysAre(lib: NetLib, names: set<string>, k: string)
    ensures k in AddressKeys(lib, names) <==> KeyOf(lib, names, {}, k)
  {
    if n :| n in names && ParseIP(lib, n).Some?
            && (k == RblKey(ParseIP(lib, n).value) || k == ReverseKey(ParseIP(lib, n).value)) {
      assert n in Parsed(lib, names) && AddressOf(lib, n) == ParseIP(lib, n).value;
    }
  }

  lemma {:induction false} SweepCidrsEtcd(st: Store, names: seq<string>, k: string)
    ensures SweepCidrs(st, names).etcd == DropCidrs(st, names).etcd
    ensures if exists c :: c in names && k == CidrToEtcdKey(c)
            then k !in SweepCidrs(st, names).etcd else SameAt(st.etcd, SweepCidrs(st, names).etcd, k)
  {
    if names != [] {
      var init, c := names[..|names| - 1], names[|names| - 1];
      SweepCidrsEtcd(st, init, k);
      assert forall x :: x in names <==> x in init || x == c;
    }
  }

  /** A sweep takes exactly the keys of what it sweeps out of etcd, in either mode. */
  lemma {:induction false} SweepKeys(lib: NetLib, st: Store, now: int, k: string)
    requires Distinct(st.cidrs)
    ensures var st' := Sweep(lib, st, now);
            if KeyOf(lib, (set n | n in st.ips && 0 < st.ips[n].expiration <= now),
                     (set c | c in ToMap(st.cidrs) && 0 < ToMap(st.cidrs)[c].expiration <= now), k)
            then k !in st'.etcd else SameAt(st.etcd, st'.etcd, k)
  {
    var names, cidrs := ExpiredIps(st.ips, now), ExpiredCidrs(st.cidrs, now);
    assert names == set n | n in st.ips && 0 < st.ips[n].expiration <= now;
    AddressKeysAre(lib, names, k);
    SweepCidrsEtcd(SweepIps(lib, st, names), cidrs, k);
    forall c ensures c in cidrs <==> c in ToMap(st.cidrs) && 0 < ToMap(st.cidrs)[c].expiration <= now {
      ExpiredCidrsAre(st.cidrs, now, c);
    }
  }

  lemma {:induction false} StaleAre(st: Store, values: set<string>)
    requires Distinct(st.cidrs)
    ensures StaleIps(st, values) == set n | n in st.ips && Unlisted(st.ips[n].source, n, values)
    ensures (set c | c in StaleCidrs(st.cidrs, values))
            == set c | c in ToMap(st.cidrs) && Unlisted(ToMap(st.cidrs)[c].source, c, values)
  {
    forall c ensures c in StaleCidrs(st.cidrs, values)
                     <==> c in ToMap(st.cidrs) && Unlisted(ToMap(st.cidrs)[c].source, c, values) {
      StaleCidrsAre(st.cidrs, values, c);
    }
  }

  /** Dropping what CrowdSec no longer lists takes exactly its keys out of etcd, in either mode. */
  lemma {:induction false} PruneKeys(lib: NetLib, st: Store, values: set<string>, k: string)
    requires Distinct(st.cidrs)
    ensures var st' := CsAct(lib, st, Prune(values));
            if KeyOf(lib, (set n | n in st.ips && Unlisted(st.ips[n].source, n, values)),
                     (set c | c in ToMap(st.cidrs) && Unlisted(ToMap(st.cidrs)[c].source, c, values)), k)
            then k !in st'.etcd else SameAt(st.etcd, st'.etcd, k)
  {
    var names, cidrs := StaleIps(st, values), StaleCidrs(st.cidrs, values);
    StaleAre(st, values);
    AddressKeysAre(lib, names, k);
    SweepCidrsEtcd(DropIps(lib, st, names), cidrs, k);
    KeyOfSplit(lib, names, cidrs, k);
  }

  lemma {:induction false} KeyOfSplit(lib: NetLib, names: set<string>, cidrs: seq<string>, k: string)
    ensures KeyOf(lib, names, (set c | c in cidrs), k)
            <==> KeyOf(lib, names, {}, k) || exists c :: c in cidrs && k == CidrToEtcdKey(c)
  {
    if c :| c in cidrs && k == CidrToEtcdKey(c) {
      assert c in set c | c in cidrs;
    }
  }

  lemma {:induction false} DropCidrsTables(st: Store, names: seq<string>)
    ensures var st' := DropCidrs(st, names);
            st'.multi == st.multi && st'.ips == st.ips && (st.multi ==> st'.cidrs == st.cidrs)
  {
    if names != [] {
      DropCidrsTables(st, names[..|names| - 1]);
    }
  }

  /** It takes exactly those entries out of the tables in single-instance mode, and none in multi-instance mode. */
  lemma {:induction false} PruneEntries(lib: NetLib, st: Store, values: set<string>, k: string)
    requires Distinct(st.cidrs)
    ensures var st' := CsAct(lib, st, Prune(values));
            if st.multi then st'.ips == st.ips && st'.cidrs == st.cidrs
            else
              && (if k in st.ips && Unlisted(st.ips[k].source, k, values)
                  then k !in st'.ips else SameAt(st.ips, st'.ips, k))
              && (if k in ToMap(st.cidrs) && Unlisted(ToMap(st.cidrs)[k].source, k, values)
                  then k !in ToMap(st'.cidrs) else SameAt(ToMap(st.cidrs), ToMap(st'.cidrs), k))
  {
    var names, cidrs := StaleIps(st, values), StaleCidrs(st.cidrs, values);
    DropCidrsTables(DropIps(lib, st, names), cidrs);
    if !st.multi {
      DropCidrsMap(DropIps(lib, st, names), cidrs);
      StaleCidrsAre(st.cidrs, values, k);
    }
  }
}
