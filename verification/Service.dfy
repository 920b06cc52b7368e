/** The handlers, the expiry code and the CrowdSec poller as they change the tables and etcd in place. */
module Service {
  import opened Text
  import opened IPv4Text
  import opened Keys
  import opened SliceMap
  import opened Records
  import opened CidrTable
  import opened Store
  import opened CrowdSec

  /** The default return code parses to its number, which prints back to its own text. */
  lemma {:induction false} DefaultReturnText()
    ensures Parse(DEFAULT_RETURN) == DEFAULT_CODE && Dotted(DEFAULT_CODE) == DEFAULT_RETURN
  {
    DecimalOctet(127);
    DecimalOctet(0);
    DecimalOctet(2);
    assert Decimal(127) == "127" && Decimal(0) == "0" && Decimal(2) == "2";
    LocalhostText(0x7F00_0002);
    ParseDotted(0x7F00_0002);
  }

  lemma {:induction false} LocalhostText(n: U32)
    requires n == 0x7F00_0002 && Decimal(127) == "127" && Decimal(0) == "0" && Decimal(2) == "2"
    ensures Dotted(n) == DEFAULT_RETURN
  {
    assert Octet(n, 0) == 127 && Octet(n, 1) == 0 && Octet(n, 2) == 0 && Octet(n, 3) == 2;
    JoinFour("127", "0", "0", "2", '.');
  }

  lemma {:induction false} AddressKeysAdd(lib: NetLib, names: set<string>, n: string)
    ensures AddressKeys(lib, names + {n}) == AddressKeys(lib, names) + AddressKeys(lib, {n})
    ensures Parsed(lib, names + {n}) == Parsed(lib, names) + Parsed(lib, {n})
  {
    assert Parsed(lib, names + {n}) == Parsed(lib, names) + Parsed(lib, {n});
  }

  lemma {:induction false} AddressKeysOne(lib: NetLib, n: string)
    ensures ParseIP(lib, n).None? ==> AddressKeys(lib, {n}) == {} && Parsed(lib, {n}) == {}
    ensures ParseIP(lib, n).Some? ==>
              AddressKeys(lib, {n}) == {RblKey(AddressOf(lib, n)), ReverseKey(AddressOf(lib, n))}
              && Parsed(lib, {n}) == {n}
  {
    assert Parsed(lib, {n}) == if ParseIP(lib, n).Some? then {n} else {};
  }

  lemma {:induction false} MinusTwice<V>(m: map<string, V>, a: set<string>, b: set<string>)
    ensures m - a - b == m - (a + b)
  {
  }

  /** Removing names one at a time or together comes to the same. */
  lemma {:induction false} RemoveOneMore(lib: NetLib, st: Store, names: set<string>, n: string)
    ensures SweepIps(lib, SweepIps(lib, st, names), {n}) == SweepIps(lib, st, names + {n})
    ensures DropIps(lib, DropIps(lib, st, names), {n}) == DropIps(lib, st, names + {n})
  {
    AddressKeysAdd(lib, names, n);
    MinusTwice(st.etcd, AddressKeys(lib, names), AddressKeys(lib, {n}));
    MinusTwice(st.ips, Parsed(lib, names), Parsed(lib, {n}));
    MinusTwice(st.ips, names, {n});
  }

  lemma {:induction false} ForgetOne(lib: NetLib, etcd: map<string, Value>, n: string, ip: IP)
    requires ParseIP(lib, n) == Some(ip)
    ensures etcd - {RblKey(ip)} - {ReverseKey(ip)} == etcd - AddressKeys(lib, {n})
  {
    AddressKeysOne(lib, n);
    MinusTwice(etcd, {RblKey(ip)}, {ReverseKey(ip)});
    assert {RblKey(ip)} + {ReverseKey(ip)} == {RblKey(ip), ReverseKey(ip)};
  }

  ghost function Prefix(names: seq<string>, i: nat): set<string>
    requires i <= |names|
  {
    set n | n in names[..i]
  }

  lemma {:induction false} PrefixNext(names: seq<string>, i: nat)
    requires i < |names|
    ensures Prefix(names, i + 1) == Prefix(names, i) + {names[i]}
  {
  }

  lemma {:induction false} PrefixAll(names: seq<string>)
    ensures Prefix(names, 0) == {} && Prefix(names, |names|) == set n | n in names
  {
  }

  /** The default return code, and its text as a record's host. */
  method DefaultReturn() returns (code: U32, host: string)
    ensures code == DEFAULT_CODE && host == Dotted(DEFAULT_CODE)
  {
    code := IPv4StrToUint32(DEFAULT_RETURN);
    host := DEFAULT_RETURN;
    DefaultReturnText();
  }

  /** The text parameters of a PUT request over their defaults. */
  method ReadTexts(q: PutQuery) returns (source: string, scenario: string, action: string, code: U32)
    ensures source == Or(q.source, "openbl") && scenario == q.scenario && action == Or(q.action, "ban")
    ensures code == Parse(Or(q.returnCode, DEFAULT_RETURN))
  {
    source, scenario, action := "openbl", "", "ban";
    code := IPv4StrToUint32(DEFAULT_RETURN);
    if q.source != "" {
      source := q.source;
    }
    if q.scenario != "" {
      scenario := q.scenario;
    }
    if q.action != "" {
      action := q.action;
    }
    if q.returnCode != "" {
      code := IPv4StrToUint32(q.returnCode);
    }
  }

  /** The time parameters, or nothing if one does not parse. */
  method ReadTimes(q: PutQuery, now: int) returns (ok: bool, lastSeen: int, expiration: int)
    ensures ok <==> !q.lastSeen.Bad? && !q.duration.Bad? && !q.expiration.Bad?
    ensures ok ==> lastSeen == OrTime(q.lastSeen, now)
    ensures ok ==> expiration == OrTime(q.expiration, if q.duration.Given? then now + q.duration.value else 0)
  {
    ok, lastSeen, expiration := true, now, 0;
    match q.lastSeen {
      case Absent =>
      case Bad => return false, 0, 0;
      case Given(t) => lastSeen := t;
    }
    match q.duration {
      case Absent =>
      case Bad => return false, 0, 0;
      case Given(d) => expiration := now + d;
    }
    match q.expiration {
      case Absent =>
      case Bad => return false, 0, 0;
      case Given(t) => expiration := t;
    }
  }

  /** The parameters of a PUT request, read one after another; any bad one rejects the request. */
  method ReadQuery(q: PutQuery, now: int) returns (r: Option<Fields>)
    ensures r == if QueryOk(q) then Some(FieldsOf(q, now)) else None
    ensures r.Some? <==> !q.unknown && (q.duration.Absent? || q.expiration.Absent?)
                         && !q.lastSeen.Bad? && !q.duration.Bad? && !q.expiration.Bad?
    ensures r.Some? ==>
              && r.value.expiration == (match (q.duration, q.expiration)
                                        case (Given(d), _) => now + d
                                        case (_, Given(t)) => t
                                        case _ => 0)
              && r.value.lastSeen == (match q.lastSeen case Given(t) => t case _ => now)
              && r.value.source == (if q.source == "" then "openbl" else q.source) && r.value.scenario == q.scenario
              && r.value.action == (if q.action == "" then "ban" else q.action)
  {
    if q.unknown {
      return None;
    }
    if !q.duration.Absent? && !q.expiration.Absent? {
      return None;
    }
    var source, scenario, action, code := ReadTexts(q);
    var ok, lastSeen, expiration := ReadTimes(q, now);
    if !ok {
      return None;
    }
    return Some(Fields(source, scenario, action, code, lastSeen, expiration));
  }

  class Instance {
    const multi: bool
    var ips: map<string, BlockEntry>
    const cidrs: CidrTableStore
    /** etcd's keys and values, which every completed call below has reached. */
    var etcd: map<string, Value>

    ghost predicate Valid()
      reads this, cidrs
    {
      cidrs.Valid()
    }

    ghost function View(): Store
      reads this, cidrs
    {
      Store(multi, ips, cidrs.entries, etcd)
    }

    constructor (multi: bool)
      ensures Valid() && fresh(cidrs)
      ensures View() == Store(multi, map[], [], map[])
    {
      this.multi := multi;
      ips, etcd := map[], map[];
      cidrs := new CidrTableStore();
    }

    method IpTableLookup(ip: string, now: int) returns (r: Option<BlockEntry>, queueDeletion: bool)
      ensures r == LookupIp(ips, ip, now)
      ensures r.Some? <==> ip in ips && (ips[ip].expiration <= 0 || now < ips[ip].expiration)
      ensures r.Some? ==> r.value == ips[ip]
      ensures queueDeletion <==> ip in ips && 0 < ips[ip].expiration <= now
    {
      if ip !in ips {
        return None, false;
      }
      var entry := ips[ip];
      if entry.expiration > 0 && entry.expiration <= now {
        return None, true;
      }
      return Some(entry), false;
    }

    method DeleteExpiredIP(lib: NetLib, ipstr: string)
      requires Valid()
      modifies this
      ensures Valid() && View() == DropIp(lib, old(View()), ipstr)
      ensures ParseIP(lib, ipstr).Some? ==>
                var ip := ParseIP(lib, ipstr).value;
                etcd == old(etcd) - {RblKey(ip), ReverseKey(ip)} && (multi ==> ips == old(ips))
    {
      var parsed := ParseIP(lib, ipstr);
      if parsed.None? {
        return;
      }
      etcd := etcd - {RblKey(parsed.value)};
      etcd := etcd - {ReverseKey(parsed.value)};
      assert etcd == Forget(old(etcd), parsed.value);
      if !multi {
        ips := ips - {ipstr};
      }
    }

    /** Both records of an address go to etcd and, in single-instance mode, its entry to the table. */
    method StoreIp(ipstr: string, ip: IP, entry: BlockEntry)
      requires Valid()
      modifies this
      ensures Valid() && View() == WriteIp(old(View()), ipstr, ip, entry)
    {
      var host := Uint32ToIPv4Str(entry.returnCode);
      var rec := BlockRecord(1, RECORD_TTL, host, entry.source, entry.scenario, entry.action,
                             entry.firstSeen, entry.lastSeen, entry.expiration);
      etcd := etcd[RblKey(ip) := Block(rec)];
      etcd := etcd[ReverseKey(ip) := Ptr(REVERSE_HOST, PTR_TTL)];
      if !multi {
        ips := ips[ipstr := entry];
      }
    }

    method HandlePut(lib: NetLib, ipstr: string, q: PutQuery, now: int) returns (ok: bool, queueDeletion: bool)
      requires Valid()
      modifies this
      ensures Valid() && View() == PutIp(lib, old(View()), ipstr, q, now)
      ensures ok <==> ParseIP(lib, ipstr).Some? && !q.unknown && (q.duration.Absent? || q.expiration.Absent?)
                      && !q.lastSeen.Bad? && !q.duration.Bad? && !q.expiration.Bad?
      ensures !ok ==> View() == old(View())
      ensures ok && !multi ==>
                ipstr in ips && ips[ipstr].firstSeen ==
                  if ipstr in old(ips) && (old(ips)[ipstr].expiration <= 0 || now < old(ips)[ipstr].expiration)
                  then old(ips)[ipstr].firstSeen else now
      ensures queueDeletion <==>
              ParseIP(lib, ipstr).Some? && ipstr in old(ips) && 0 < old(ips)[ipstr].expiration <= now
    {
      var parsed := ParseIP(lib, ipstr);
      if parsed.None? {
        return false, false;
      }
      var firstSeen := now;
      var existing;
      existing, queueDeletion := IpTableLookup(ipstr, now);
      if existing.Some? {
        firstSeen := existing.value.firstSeen;
      }
      var f := ReadQuery(q, now);
      if f.None? {
        return false, queueDeletion;
      }
      var entry := BlockEntry(ipstr, f.value.source, f.value.scenario, f.value.action, 0, 0,
                              firstSeen, f.value.lastSeen, f.value.expiration, f.value.returnCode);
      StoreIp(ipstr, parsed.value, entry);
      return true, queueDeletion;
    }

    method HandleDelete(lib: NetLib, ipstr: string) returns (ok: bool)
      requires Valid()
      modifies this
      ensures Valid() && View() == DropIp(lib, old(View()), ipstr)
      ensures ParseIP(lib, ipstr).Some? ==>
                var ip := ParseIP(lib, ipstr).value;
                etcd == old(etcd) - {RblKey(ip), ReverseKey(ip)} && (multi ==> ips == old(ips))
      ensures ok <==> ParseIP(lib, ipstr).Some?
    {
      var ip := ParseIP(lib, ipstr);
      if ip.None? {
        return false;
      }
      etcd := etcd - {RblKey(ip.value)};
      etcd := etcd - {ReverseKey(ip.value)};
      assert etcd == Forget(old(etcd), ip.value);
      if !multi {
        ips := ips - {ipstr};
      }
      return true;
    }

    method HandlePutNetwork(lib: NetLib, cidrStr: string, q: PutQuery, now: int) returns (ok: bool)
      requires Valid()
      modifies this, cidrs
      ensures Valid() && View() == PutNet(lib, old(View()), cidrStr, q, now)
      ensures ok <==> lib.parseCIDR(cidrStr).Some? && !q.unknown && (q.duration.Absent? || q.expiration.Absent?)
                      && !q.lastSeen.Bad? && !q.duration.Bad? && !q.expiration.Bad?
      ensures !ok ==> View() == old(View())
    {
      var network := lib.parseCIDR(cidrStr);
      if network.None? {
        return false;
      }
      var cidr := lib.cidrText(network.value);
      var firstSeen := now;
      var existing := cidrs.FindByCIDR(cidr);
      MapGet(cidrs.entries, cidr);
      if existing.Some? {
        firstSeen := existing.value.val.firstSeen;
      }
      var f := ReadQuery(q, now);
      if f.None? {
        return false;
      }
      StoreCidr(Row(cidr, CIDRBlock(network.value, f.value.source, f.value.scenario, f.value.action,
                                    f.value.returnCode, firstSeen, f.value.lastSeen, f.value.expiration)));
      return true;
    }

    /** The record of a network goes to etcd and, in single-instance mode, its entry to the table. */
    method StoreCidr(e: CIDREntry)
      requires Valid()
      modifies this`etcd, cidrs
      ensures Valid() && View() == WriteCidr(old(View()), e)
    {
      var host := Uint32ToIPv4Str(e.val.returnCode);
      var rec := BlockRecord(1, RECORD_TTL, host, e.val.source, e.val.scenario, e.val.action,
                             e.val.firstSeen, e.val.lastSeen, e.val.expiration);
      etcd := etcd[CidrToEtcdKey(e.key) := Block(rec)];
      if !multi {
        cidrs.Upsert(e);
      }
    }

    method DeleteExpiredCIDR(cidr: string)
      requires Valid()
      modifies this`etcd, cidrs
      ensures Valid() && View() == DropCidr(old(View()), cidr)
    {
      etcd := etcd - {CidrToEtcdKey(cidr)};
      if !multi {
        cidrs.Remove(cidr);
      }
    }

    method HandleDeleteNetwork(lib: NetLib, cidrStr: string) returns (ok: bool)
      requires Valid()
      modifies this`etcd, cidrs
      ensures Valid() && View() == DropNet(lib, old(View()), cidrStr)
      ensures ok <==> lib.parseCIDR(cidrStr).Some?
    {
      var network := lib.parseCIDR(cidrStr);
      if network.None? {
        return false;
      }
      DeleteExpiredCIDR(lib.cidrText(network.value));
      return true;
    }

    // ---- The periodic sweep -----------------------------------------------

    /** First phase: the expired addresses, in the map's iteration order. */
    method CollectExpired(now: int) returns (expired: seq<string>)
      ensures (set n | n in expired) == ExpiredIps(ips, now)
      ensures forall n :: n in expired <==> n in ips && 0 < ips[n].expiration <= now
    {
      expired := [];
      var keys := ips.Keys;
      while keys != {}
        invariant keys <= ips.Keys
        invariant forall n :: n in expired <==> n in ips && n !in keys && Expired(ips[n].expiration, now)
        decreases keys
      {
        var ip :| ip in keys;
        if ips[ip].expiration > 0 && ips[ip].expiration <= now {
          expired := expired + [ip];
        }
        keys := keys - {ip};
      }
    }

    /** Second phase: each collected address leaves etcd and, whatever the mode, the table. */
    method RemoveExpired(lib: NetLib, expired: seq<string>)
      requires Valid()
      modifies this
      ensures Valid() && View() == SweepIps(lib, old(View()), set n | n in expired)
    {
      PrefixAll(expired);
      assert Parsed(lib, {}) == {} && AddressKeys(lib, {}) == {};
      for i := 0 to |expired|
        invariant Valid() && View() == SweepIps(lib, old(View()), Prefix(expired, i))
      {
        PrefixNext(expired, i);
        RemoveOneMore(lib, old(View()), Prefix(expired, i), expired[i]);
        SweepOne(lib, expired[i]);
      }
    }

    method SweepOne(lib: NetLib, ipstr: string)
      requires Valid()
      modifies this
      ensures Valid() && View() == SweepIps(lib, old(View()), {ipstr})
    {
      AddressKeysOne(lib, ipstr);
      var ip := ParseIP(lib, ipstr);
      if ip.Some? {
        ForgetOne(lib, etcd, ipstr, ip.value);
        etcd := etcd - {RblKey(ip.value)};
        etcd := etcd - {ReverseKey(ip.value)};
        ips := ips - {ipstr};
      }
    }

    method CollectExpiredCidrs(now: int) returns (names: seq<string>)
      ensures names == ExpiredCidrs(cidrs.entries, now)
      ensures forall c :: c in names <==>
                exists e :: e in cidrs.entries && e.key == c && 0 < e.val.expiration <= now
    {
      names := [];
      var s := cidrs.entries;
      assert s[..0] == [];
      for i := 0 to |s|
        invariant names == ExpiredCidrs(s[..i], now)
        invariant forall c :: c in names <==> exists e :: e in s[..i] && e.key == c && 0 < e.val.expiration <= now
      {
        assert s[..i + 1][..i] == s[..i];
        if s[i].val.expiration > 0 && s[i].val.expiration <= now {
          names := names + [s[i].key];
        } else {
          assert names == names + [];
        }
      }
      assert s[..|s|] == s;
    }

    method RemoveExpiredCidrs(names: seq<string>)
      requires Valid()
      modifies this`etcd, cidrs
      ensures Valid() && View() == SweepCidrs(old(View()), names)
    {
      assert names[..0] == [];
      for i := 0 to |names|
        invariant Valid() && View() == SweepCidrs(old(View()), names[..i])
      {
        assert names[..i + 1][..i] == names[..i];
        etcd := etcd - {CidrToEtcdKey(names[i])};
        cidrs.Remove(names[i]);
      }
      assert names[..|names|] == names;
    }

    method ExpirationSweep(lib: NetLib, now: int)
      requires Valid()
      modifies this, cidrs
      ensures Valid() && View() == Sweep(lib, old(View()), now)
    {
      var expired := CollectExpired(now);
      RemoveExpired(lib, expired);
      var names := CollectExpiredCidrs(now);
      RemoveExpiredCidrs(names);
    }

    // ---- CrowdSec ---------------------------------------------------------

    /** The entry a decision makes of an address, and the deletion that looking the old one up starts. */
    method DecisionEntry(d: Decision, ipstr: string) returns (entry: BlockEntry, started: seq<string>)
      ensures entry == CsEntry(ipstr, d, FirstSeen(LookupIp(ips, ipstr, d.now), d.now))
      ensures started == if ipstr in ips && 0 < ips[ipstr].expiration <= d.now then [ipstr] else []
    {
      var code, _ := DefaultReturn();
      entry := BlockEntry(ipstr, SourceOf(d), d.scenario, d.kind, 0, 0, d.now, d.now, d.expiration, code);
      var existing, expired := IpTableLookup(ipstr, d.now);
      if existing.Some? {
        entry := entry.(firstSeen := existing.value.firstSeen);
      }
      started := if expired then [ipstr] else [];
    }

    /** As `StoreIp`, with the default return code's own text as the record's host. */
    method StoreDecision(ipstr: string, ip: IP, entry: BlockEntry)
      requires Valid() && entry.returnCode == DEFAULT_CODE
      modifies this
      ensures Valid() && View() == WriteIp(old(View()), ipstr, ip, entry)
    {
      var _, host := DefaultReturn();
      var rec := BlockRecord(1, RECORD_TTL, host, entry.source, entry.scenario, entry.action,
                             entry.firstSeen, entry.lastSeen, entry.expiration);
      etcd := etcd[RblKey(ip) := Block(rec)];
      etcd := etcd[ReverseKey(ip) := Ptr(REVERSE_HOST, PTR_TTL)];
      if !multi {
        ips := ips[ipstr := entry];
      }
    }

    method CrowdSecApplyIP(lib: NetLib, d: Decision) returns (started: seq<string>)
      requires Valid() && '/' !in d.value
      modifies this
      ensures Valid() && View() == CsAct(lib, old(View()), Ban(d))
      ensures started == CsQueue(lib, old(View()), d)
    {
      var ip := ParseIP(lib, d.value);
      if ip.None? {
        return [];
      }
      var ipstr := IPText(lib, ip.value);
      var entry;
      entry, started := DecisionEntry(d, ipstr);
      StoreDecision(ipstr, ip.value, entry);
    }

    /** The record's host is the default return code's own text, as `DefaultReturnText` shows. */
    method CrowdSecApplyCIDR(lib: NetLib, d: Decision)
      requires Valid() && '/' in d.value
      modifies this`etcd, cidrs
      ensures Valid() && View() == CsAct(lib, old(View()), Ban(d))
    {
      var network := lib.parseCIDR(d.value);
      if network.None? {
        return;
      }
      var cidr := lib.cidrText(network.value);
      var code, _ := DefaultReturn();
      var entry := CIDRBlock(network.value, SourceOf(d), d.scenario, d.kind, code, d.now, d.now, d.expiration);
      var existing := cidrs.FindByCIDR(cidr);
      MapGet(cidrs.entries, cidr);
      if existing.Some? {
        entry := entry.(firstSeen := existing.value.val.firstSeen);
      }
      StoreCidr(Row(cidr, entry));
    }

    /** `started` are the deletions that the lookup sets going. */
    method CrowdSecApply(lib: NetLib, d: Decision) returns (started: seq<string>)
      requires Valid()
      modifies this, cidrs
      ensures Valid() && View() == CsAct(lib, old(View()), Ban(d))
      ensures started == CsQueue(lib, old(View()), d)
    {
      if '/' in d.value {
        CrowdSecApplyCIDR(lib, d);
        started := [];
      } else {
        started := CrowdSecApplyIP(lib, d);
      }
    }

    method CrowdSecRemove(lib: NetLib, d: Decision)
      requires Valid()
      modifies this, cidrs
      ensures Valid() && View() == CsAct(lib, old(View()), Unban(d))
    {
      if '/' in d.value {
        var network := lib.parseCIDR(d.value);
        if network.None? {
          return;
        }
        DeleteExpiredCIDR(lib.cidrText(network.value));
      } else {
        var ip := ParseIP(lib, d.value);
        if ip.None? {
          return;
        }
        etcd := etcd - {RblKey(ip.value)};
        etcd := etcd - {ReverseKey(ip.value)};
        assert etcd == Forget(old(etcd), ip.value);
        if !multi {
          ips := ips - {IPText(lib, ip.value)};
        }
      }
    }

    method ApplyDecisions(lib: NetLib, ds: seq<Decision>) returns (started: seq<string>)
      requires Valid()
      modifies this, cidrs
      ensures Valid() && View() == ActAll(lib, old(View()), Bans(ds))
      ensures started == QueuedAll(lib, old(View()), Bans(ds))
    {
      started := [];
      assert ds[..0] == [];
      for i := 0 to |ds|
        invariant Valid() && View() == ActAll(lib, old(View()), Bans(ds[..i]))
        invariant started == QueuedAll(lib, old(View()), Bans(ds[..i]))
      {
        assert ds[..i + 1][..i] == ds[..i];
        ActSnoc(lib, old(View()), Bans(ds[..i]), Ban(ds[i]));
        var more := CrowdSecApply(lib, ds[i]);
        started := started + more;
      }
      assert ds[..|ds|] == ds;
    }

    method RemoveDecisions(lib: NetLib, ds: seq<Decision>)
      requires Valid()
      modifies this, cidrs
      ensures Valid() && View() == ActAll(lib, old(View()), Unbans(ds))
      ensures QueuedAll(lib, old(View()), Unbans(ds)) == []
    {
      assert ds[..0] == [];
      for i := 0 to |ds|
        invariant Valid() && View() == ActAll(lib, old(View()), Unbans(ds[..i]))
        invariant QueuedAll(lib, old(View()), Unbans(ds[..i])) == []
      {
        assert ds[..i + 1][..i] == ds[..i];
        ActSnoc(lib, old(View()), Unbans(ds[..i]), Unban(ds[i]));
        CrowdSecRemove(lib, ds[i]);
      }
      assert ds[..|ds|] == ds;
    }

    /** A poll after startup. */
    method CrowdSecDelta(lib: NetLib, p: Delta) returns (started: seq<string>)
      requires Valid()
      modifies this, cidrs
      ensures Valid() && View() == ActAll(lib, old(View()), PollActs(p))
      ensures started == QueuedAll(lib, old(View()), PollActs(p))
    {
      started := ApplyDecisions(lib, p.added);
      RemoveDecisions(lib, p.deleted);
      ActConcat(lib, old(View()), Bans(p.added), Unbans(p.deleted));
      assert started + [] == started;
    }

    method CanonicalValues(lib: NetLib, ds: seq<Decision>) returns (values: set<string>)
      ensures values == CanonSet(lib, ds)
    {
      values := {};
      assert ds[..0] == [];
      for i := 0 to |ds|
        invariant values == CanonSet(lib, ds[..i])
      {
        assert ds[..i + 1][..i] == ds[..i];
        var d := ds[i];
        if '/' in d.value {
          var network := lib.parseCIDR(d.value);
          if network.Some? {
            values := values + {lib.cidrText(network.value)};
          }
        } else {
          var ip := ParseIP(lib, d.value);
          if ip.Some? {
            values := values + {IPText(lib, ip.value)};
          }
        }
      }
      assert ds[..|ds|] == ds;
    }

    method CollectStale(values: set<string>) returns (stale: seq<string>)
      ensures (set n | n in stale) == StaleIps(View(), values)
    {
      stale := [];
      var keys := ips.Keys;
      while keys != {}
        invariant keys <= ips.Keys
        invariant forall n :: n in stale <==> n in ips && n !in keys && FromCrowdSec(ips[n].source) && n !in values
        decreases keys
      {
        var ip :| ip in keys;
        if FromCrowdSec(ips[ip].source) && ip !in values {
          stale := stale + [ip];
        }
        keys := keys - {ip};
      }
    }

    method DropStaleIps(lib: NetLib, values: set<string>)
      requires Valid()
      modifies this
      ensures Valid() && View() == DropIps(lib, old(View()), StaleIps(old(View()), values))
    {
      var stale := CollectStale(values);
      PrefixAll(stale);
      assert AddressKeys(lib, {}) == {};
      for i := 0 to |stale|
        invariant Valid() && View() == DropIps(lib, old(View()), Prefix(stale, i))
      {
        PrefixNext(stale, i);
        RemoveOneMore(lib, old(View()), Prefix(stale, i), stale[i]);
        DropOneStale(lib, stale[i]);
      }
    }

    method DropOneStale(lib: NetLib, ipstr: string)
      requires Valid()
      modifies this
      ensures Valid() && View() == DropIps(lib, old(View()), {ipstr})
    {
      AddressKeysOne(lib, ipstr);
      var parsed := ParseIP(lib, ipstr);
      if parsed.Some? {
        ForgetOne(lib, etcd, ipstr, parsed.value);
        etcd := etcd - {RblKey(parsed.value)};
        etcd := etcd - {ReverseKey(parsed.value)};
      }
      if !multi {
        ips := ips - {ipstr};
      }
    }

    method CollectStaleCidrs(values: set<string>) returns (stale: seq<string>)
      ensures stale == StaleCidrs(cidrs.entries, values)
    {
      stale := [];
      var s := cidrs.entries;
      assert s[..0] == [];
      for i := 0 to |s|
        invariant stale == StaleCidrs(s[..i], values)
      {
        assert s[..i + 1][..i] == s[..i];
        if FromCrowdSec(s[i].val.source) && s[i].key !in values {
          stale := stale + [s[i].key];
        } else {
          assert stale == stale + [];
        }
      }
      assert s[..|s|] == s;
    }

    method DropStaleCidrs(values: set<string>)
      requires Valid()
      modifies this`etcd, cidrs
      ensures Valid() && View() == DropCidrs(old(View()), StaleCidrs(old(View()).cidrs, values))
    {
      var stale := CollectStaleCidrs(values);
      assert stale[..0] == [];
      for i := 0 to |stale|
        invariant Valid() && View() == DropCidrs(old(View()), stale[..i])
      {
        assert stale[..i + 1][..i] == stale[..i];
        DeleteExpiredCIDR(stale[i]);
      }
      assert stale[..|stale|] == stale;
    }

    method CrowdSecReconcile(lib: NetLib, ds: seq<Decision>) returns (started: seq<string>)
      requires Valid()
      modifies this, cidrs
      ensures Valid() && View() == ActAll(lib, old(View()), ReconcileActs(lib, ds))
      ensures started == QueuedAll(lib, old(View()), ReconcileActs(lib, ds))
    {
      var values := CanonicalValues(lib, ds);
      DropStaleIps(lib, values);
      DropStaleCidrs(values);
      assert [] + [Prune(values)] == [Prune(values)];
      ActSnoc(lib, old(View()), [], Prune(values));
      ActConcat(lib, old(View()), [Prune(values)], Bans(ds));
      started := ApplyDecisions(lib, ds);
    }
  }
}
