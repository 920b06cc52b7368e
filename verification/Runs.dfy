/** Whole runs of one instance, restarts among their operations: pairing, key shapes, and what a restart gives back. */
module Runs {
  import opened Text
  import opened IPv4Text
  import opened Keys
  import opened SliceMap
  import opened Records
  import opened EtcdLog
  import opened Mirror
  import opened Store
  import opened Restart
  import opened CrowdSec

  /**
   * What reaches the tables and etcd in one go. A write carries the first-seen time that an earlier lookup gave, so
   * anything may come between the two. `Erase` is a DELETE request or one deletion of a lazy expiry, a sweep or a
   * reconcile, and `EraseCidr` the like for a network.
   */
  datatype Op =
    | PutAddress(ip: string, q: PutQuery, now: int, firstSeen: int)
    | Erase(ip: string)
    | PutNetwork(text: string, q: PutQuery, now: int, firstSeen: int)
    | DropNetwork(text: string)
    | EraseCidr(cidr: string)
    | SweepAll(now: int)
    | BanDecision(d: Decision, firstSeen: int)
    | LiftDecision(d: Decision)
    | DropUnlisted(values: set<string>)
    | Reboot(m: map<string, KV>, ips: seq<RangeRow>, cidrs: seq<RangeRow>)

  /** A restart reads what etcd holds. */
  ghost predicate Enabled(st: Store, op: Op) {
    op.Reboot? ==> ReadFrom(st.etcd, op.m, op.ips, op.cidrs)
  }

  function Step(lib: NetLib, st: Store, op: Op): Store {
    match op
    case PutAddress(ip, q, now, firstSeen) => PutIpAs(lib, st, ip, q, now, firstSeen)
    case Erase(ip) => DropIp(lib, st, ip)
    case PutNetwork(text, q, now, firstSeen) => PutNetAs(lib, st, text, q, now, firstSeen)
    case DropNetwork(text) => DropNet(lib, st, text)
    case EraseCidr(cidr) => DropCidr(st, cidr)
    case SweepAll(now) => Sweep(lib, st, now)
    case BanDecision(d, firstSeen) => CsWrite(lib, st, d, firstSeen)
    case LiftDecision(d) => CsRemove(lib, st, d)
    case DropUnlisted(values) => DropStale(lib, st, values)
    case Reboot(_, ips, cidrs) => Restarted(lib, st, ips, cidrs)
  }

  /** The states a run of operations passes through, one more than its operations. */
  ghost predicate IsRun(lib: NetLib, states: seq<Store>, ops: seq<Op>) {
    && |states| == |ops| + 1
    && forall i | 0 <= i < |ops| :: Enabled(states[i], ops[i]) && states[i + 1] == Step(lib, states[i], ops[i])
  }

  lemma {:induction false} DecisionSteps(lib: NetLib, st: Store, d: Decision, firstSeen: int)
    ensures Step(lib, st, BanDecision(d, firstSeen)) == CsWrite(lib, st, d, firstSeen)
    ensures Step(lib, st, LiftDecision(d)) == CsRemove(lib, st, d)
  {
  }

  // ---- Pairing ------------------------------------------------------------

  lemma {:induction false} PairedBan(lib: NetLib, st: Store, d: Decision, firstSeen: int)
    requires Paired(st.etcd)
    ensures Paired(CsWrite(lib, st, d, firstSeen).etcd)
  {
    if '/' in d.value {
      if lib.parseCIDR(d.value).Some? {
        var net := lib.parseCIDR(d.value).value;
        PairedCidr(st.etcd, lib.cidrText(net), Block(RecordOfCIDR(CsBlock(net, d, firstSeen))));
      }
    } else if ParseIP(lib, d.value).Some? {
      var ip := ParseIP(lib, d.value).value;
      PairedWrite(st.etcd, ip, Block(RecordOf(CsEntry(IPText(lib, ip), d, firstSeen))), Ptr(REVERSE_HOST, PTR_TTL));
    }
  }

  lemma {:induction false} PairedLift(lib: NetLib, st: Store, d: Decision)
    requires Paired(st.etcd)
    ensures Paired(CsRemove(lib, st, d).etcd)
  {
    if '/' in d.value {
      if lib.parseCIDR(d.value).Some? {
        PairedCidr(st.etcd, lib.cidrText(lib.parseCIDR(d.value).value), Malformed);
      }
    } else if ParseIP(lib, d.value).Some? {
      PairedForget(st.etcd, ParseIP(lib, d.value).value);
    }
  }

  lemma {:induction false} PairedDropCidrs(st: Store, names: seq<string>)
    requires Paired(st.etcd)
    ensures Paired(DropCidrs(st, names).etcd)
  {
    if names != [] {
      PairedDropCidrs(st, names[..|names| - 1]);
      PairedCidr(DropCidrs(st, names[..|names| - 1]).etcd, names[|names| - 1], Malformed);
    }
  }

  lemma {:induction false} PairedPut(lib: NetLib, st: Store, ipstr: string, q: PutQuery, now: int, firstSeen: int)
    requires Paired(st.etcd)
    ensures Paired(Step(lib, st, PutAddress(ipstr, q, now, firstSeen)).etcd)
  {
    if ParseIP(lib, ipstr).Some? && QueryOk(q) {
      var e := NewEntry(ipstr, q, now, firstSeen);
      PairedWrite(st.etcd, ParseIP(lib, ipstr).value, Block(RecordOf(e)), Ptr(REVERSE_HOST, PTR_TTL));
    }
  }

  lemma {:induction false} PairedPutNet(lib: NetLib, st: Store, text: string, q: PutQuery, now: int, firstSeen: int)
    requires Paired(st.etcd)
    ensures Paired(Step(lib, st, PutNetwork(text, q, now, firstSeen)).etcd)
  {
    if lib.parseCIDR(text).Some? && QueryOk(q) {
      var net := lib.parseCIDR(text).value;
      PairedCidr(st.etcd, lib.cidrText(net), Block(RecordOfCIDR(NewBlock(net, q, now, firstSeen))));
    }
  }

  lemma {:induction false} PairedErase(lib: NetLib, st: Store, ip: string)
    requires Paired(st.etcd)
    ensures Paired(Step(lib, st, Erase(ip)).etcd)
  {
    if ParseIP(lib, ip).Some? {
      PairedForget(st.etcd, ParseIP(lib, ip).value);
    }
  }

  lemma {:induction false} PairedDropNet(lib: NetLib, st: Store, text: string)
    requires Paired(st.etcd)
    ensures Paired(Step(lib, st, DropNetwork(text)).etcd)
  {
    if lib.parseCIDR(text).Some? {
      PairedCidr(st.etcd, lib.cidrText(lib.parseCIDR(text).value), Malformed);
    }
  }

  lemma {:induction false} PairedEraseCidr(lib: NetLib, st: Store, cidr: string)
    requires Paired(st.etcd)
    ensures Paired(Step(lib, st, EraseCidr(cidr)).etcd)
  {
    PairedCidr(st.etcd, cidr, Malformed);
  }

  lemma {:induction false} PairedSweep(lib: NetLib, st: Store, now: int)
    requires Paired(st.etcd)
    ensures Paired(Step(lib, st, SweepAll(now)).etcd)
  {
    PairedForgetAll(lib, st.etcd, ExpiredIps(st.ips, now));
    PairedSweepCidrs(SweepIps(lib, st, ExpiredIps(st.ips, now)), ExpiredCidrs(st.cidrs, now));
  }

  lemma {:induction false} PairedDropStale(lib: NetLib, st: Store, values: set<string>)
    requires Paired(st.etcd)
    ensures Paired(Step(lib, st, DropUnlisted(values)).etcd)
  {
    PairedForgetAll(lib, st.etcd, StaleIps(st, values));
    PairedDropCidrs(DropIps(lib, st, StaleIps(st, values)), StaleCidrs(st.cidrs, values));
  }

  lemma {:induction false} PairedStep(lib: NetLib, st: Store, op: Op)
    requires Paired(st.etcd)
    ensures Paired(Step(lib, st, op).etcd)
  {
    match op
    case PutAddress(ip, q, now, firstSeen) => PairedPut(lib, st, ip, q, now, firstSeen);
    case Erase(ip) => PairedErase(lib, st, ip);
    case PutNetwork(text, q, now, firstSeen) => PairedPutNet(lib, st, text, q, now, firstSeen);
    case DropNetwork(text) => PairedDropNet(lib, st, text);
    case EraseCidr(cidr) => PairedEraseCidr(lib, st, cidr);
    case SweepAll(now) => PairedSweep(lib, st, now);
    case BanDecision(d, firstSeen) =>
      DecisionSteps(lib, st, d, firstSeen);
      PairedBan(lib, st, d, firstSeen);
    case LiftDecision(d) =>
      DecisionSteps(lib, st, d, 0);
      PairedLift(lib, st, d);
    case DropUnlisted(values) => PairedDropStale(lib, st, values);
    case Reboot(_, _, _) =>
  }

  /** In either mode and for every address, IPv4 or IPv6, no run leaves a record without its partner. */
  lemma {:induction false} PairedRun(lib: NetLib, states: seq<Store>, ops: seq<Op>, i: nat)
    requires IsRun(lib, states, ops) && i < |states| && Paired(states[0].etcd)
    ensures Paired(states[i].etcd)
  {
    if i > 0 {
      PairedRun(lib, states, ops, i - 1);
      PairedStep(lib, states[i - 1], ops[i - 1]);
    }
  }

  // ---- Restart ------------------------------------------------------------

  ghost predicate IPv4Decision(lib: NetLib, d: Decision) {
    '/' in d.value || ParseIP(lib, d.value).None? || ParseIP(lib, d.value).value.V4?
  }

  /** The operation names its addresses as dotted quads, or not validly at all. */
  ghost predicate IPv4Op(lib: NetLib, op: Op) {
    match op
    case PutAddress(ip, _, _, _) => DottedQuad(ip) || ParseIP(lib, ip).None?
    case Erase(ip) => DottedQuad(ip) || ParseIP(lib, ip).None?
    case EraseCidr(cidr) => '_' !in cidr
    case BanDecision(d, _) => IPv4Decision(lib, d)
    case LiftDecision(d) => IPv4Decision(lib, d)
    case _ => true
  }

  lemma {:induction false} MirroredBan(lib: NetLib, st: Store, d: Decision, firstSeen: int)
    requires Lawful(lib) && Mirrored(lib, st) && IPv4Decision(lib, d)
    ensures Mirrored(lib, CsWrite(lib, st, d, firstSeen))
  {
    if '/' in d.value {
      if lib.parseCIDR(d.value).Some? {
        var net := lib.parseCIDR(d.value).value;
        MirroredWriteCidr(lib, st, Row(lib.cidrText(net), CsBlock(net, d, firstSeen)));
      }
    } else if ParseIP(lib, d.value).Some? {
      var n := ParseIP(lib, d.value).value.n;
      MirroredWriteIp(lib, st, n, CsEntry(Dotted(n), d, firstSeen));
    }
  }

  lemma {:induction false} MirroredLift(lib: NetLib, st: Store, d: Decision)
    requires Lawful(lib) && Mirrored(lib, st) && IPv4Decision(lib, d)
    ensures Mirrored(lib, CsRemove(lib, st, d))
  {
    if '/' in d.value {
      if lib.parseCIDR(d.value).Some? {
        MirroredDropCidr(lib, st, lib.cidrText(lib.parseCIDR(d.value).value));
      }
    } else if ParseIP(lib, d.value).Some? {
      MirroredForget(lib, st, ParseIP(lib, d.value).value.n);
    }
  }

  lemma {:induction false} MirroredDropCidrs(lib: NetLib, st: Store, names: seq<string>)
    requires Mirrored(lib, st) && forall c | c in names :: '_' !in c
    ensures Mirrored(lib, DropCidrs(st, names))
  {
    if names != [] {
      MirroredDropCidrs(lib, st, names[..|names| - 1]);
      MirroredDropCidr(lib, DropCidrs(st, names[..|names| - 1]), names[|names| - 1]);
    }
  }

  lemma {:induction false} MirroredDropStale(lib: NetLib, st: Store, values: set<string>)
    requires Mirrored(lib, st)
    ensures Mirrored(lib, DropStale(lib, st, values))
  {
    var names, cidrs := StaleIps(st, values), StaleCidrs(st.cidrs, values);
    forall n | n in names ensures DottedQuad(n) {
      assert IpAt(false, st.ips, Unstamped(st.etcd), n);
    }
    MirroredForgetAll(lib, st, names);
    forall c | c in cidrs ensures '_' !in c {
      StaleCidrsAre(st.cidrs, values, c);
      assert CidrAt(lib, ToMap(st.cidrs), Unstamped(st.etcd), c);
    }
    MirroredDropCidrs(lib, DropIps(lib, st, names), cidrs);
  }

  lemma {:induction false} MirroredStep(lib: NetLib, st: Store, op: Op)
    requires Lawful(lib) && Mirrored(lib, st) && IPv4Op(lib, op) && Enabled(st, op)
    ensures Mirrored(lib, Step(lib, st, op))
  {
    match op
    case PutAddress(ip, q, now, firstSeen) =>
      if DottedQuad(ip) {
        MirroredPutIp(lib, st, ip, q, now, firstSeen);
      }
    case Erase(ip) =>
      if DottedQuad(ip) {
        MirroredDropIp(lib, st, ip);
      }
    case PutNetwork(text, q, now, firstSeen) => MirroredPutNet(lib, st, text, q, now, firstSeen);
    case DropNetwork(text) => MirroredDropNet(lib, st, text);
    case EraseCidr(cidr) => MirroredDropCidr(lib, st, cidr);
    case SweepAll(now) => MirroredSweep(lib, st, now);
    case BanDecision(d, firstSeen) => MirroredBan(lib, st, d, firstSeen);
    case LiftDecision(d) => MirroredLift(lib, st, d);
    case DropUnlisted(values) => MirroredDropStale(lib, st, values);
    case Reboot(m, ips, cidrs) => MirroredRestart(lib, st, m, ips, cidrs);
  }

  /** In every state of an IPv4 run, across restarts, both tables hold exactly what etcd holds. */
  lemma {:induction false} MirroredRun(lib: NetLib, states: seq<Store>, ops: seq<Op>, i: nat)
    requires Lawful(lib) && IsRun(lib, states, ops) && i < |states| && Mirrored(lib, states[0])
    requires forall j | 0 <= j < i :: IPv4Op(lib, ops[j])
    ensures Mirrored(lib, states[i])
  {
    if i > 0 {
      MirroredRun(lib, states, ops, i - 1);
      MirroredStep(lib, states[i - 1], ops[i - 1]);
    }
  }

  const EMPTY := Store(false, map[], [], map[])

  /** A first start has everything that these runs ask of their first state. */
  lemma {:induction false} EmptyStart(lib: NetLib)
    ensures Mirrored(lib, EMPTY) && Shaped(EMPTY) && Paired(EMPTY.etcd)
  {
    EmptyMirrors(lib, false);
    assert Unstamped(map[]) == map[];
  }

  /** At every point of an IPv4 run, loading from etcd rebuilds both tables as they are, revisions aside. */
  lemma {:induction false} RestartLosesNothing(
    lib: NetLib, states: seq<Store>, ops: seq<Op>, i: nat,
    m: map<string, KV>, ips: seq<RangeRow>, cidrs: seq<RangeRow>)
    requires Lawful(lib) && IsRun(lib, states, ops) && i < |states| && Mirrored(lib, states[0])
    requires forall j | 0 <= j < i :: IPv4Op(lib, ops[j])
    requires ReadFrom(states[i].etcd, m, ips, cidrs)
    ensures SameButRevisions(Restarted(lib, states[i], ips, cidrs).ips, states[i].ips)
    ensures Distinct(states[i].cidrs)
    ensures ToMap(Restarted(lib, states[i], ips, cidrs).cidrs) == ToMap(states[i].cidrs)
  {
    MirroredRun(lib, states, ops, i);
    RestartRebuilds(lib, states[i], m, ips, cidrs);
  }

  // ---- Key shapes ---------------------------------------------------------

  lemma {:induction false} ShapedSweepCidrs(st: Store, names: seq<string>)
    requires Shaped(st)
    ensures Shaped(SweepCidrs(st, names))
  {
    if names != [] {
      ShapedSweepCidrs(st, names[..|names| - 1]);
      RemoveMap(SweepCidrs(st, names[..|names| - 1]).cidrs, names[|names| - 1]);
    }
  }

  lemma {:induction false} LastFourNoSlash(key: string)
    ensures LastFour(key).Some? ==> '/' !in LastFour(key).value
  {
    var parts := Split(key, '/');
    if |parts| >= 4 {
      var p := parts[|parts| - 4..];
      assert p == [p[0], p[1], p[2], p[3]];
      JoinFour(p[0], p[1], p[2], p[3], '.');
    }
  }

  /** Loaded address keys hold no slash, whatever the rows. */
  lemma {:induction false} LoadedIpShape(rows: seq<RangeRow>)
    ensures forall ip | ip in LoadIp(rows) :: '/' !in ip
  {
    if rows != [] {
      LoadedIpShape(rows[..|rows| - 1]);
      LastFourNoSlash(rows[|rows| - 1].key);
    }
  }

  /** Loaded network keys hold one, because they parse. */
  lemma {:induction false} LoadedCidrShape(lib: NetLib, rows: seq<RangeRow>)
    requires Lawful(lib)
    ensures forall c | c in LoadCidr(lib, rows) :: '/' in c
  {
    if rows != [] {
      LoadedCidrShape(lib, rows[..|rows| - 1]);
    }
  }

  lemma {:induction false} ShapedRestart(
    lib: NetLib, st: Store, m: map<string, KV>, ips: seq<RangeRow>, cidrs: seq<RangeRow>)
    requires Lawful(lib) && Shaped(st)
    ensures Shaped(Step(lib, st, Reboot(m, ips, cidrs)))
  {
    LoadedIpShape(ips);
    LoadedCidrShape(lib, cidrs);
    LoadSliceMap(lib, cidrs);
  }

  lemma {:induction false} ShapedWriteCidr(st: Store, e: CIDREntry)
    requires Shaped(st) && '/' in e.key
    ensures Shaped(WriteCidr(st, e))
  {
    UpsertMap(st.cidrs, e);
  }

  lemma {:induction false} ShapedDropCidr(st: Store, c: string)
    requires Shaped(st)
    ensures Shaped(DropCidr(st, c))
  {
    RemoveMap(st.cidrs, c);
  }

  lemma {:induction false} ShapedPut(lib: NetLib, st: Store, ip: string, q: PutQuery, now: int, firstSeen: int)
    requires Lawful(lib) && Shaped(st)
    ensures Shaped(Step(lib, st, PutAddress(ip, q, now, firstSeen)))
  {
    if ParseIP(lib, ip).Some? {
      CanonicalIP(lib, ip);
    }
  }

  lemma {:induction false} ShapedPutNet(lib: NetLib, st: Store, text: string, q: PutQuery, now: int, firstSeen: int)
    requires Lawful(lib) && Shaped(st)
    ensures Shaped(Step(lib, st, PutNetwork(text, q, now, firstSeen)))
  {
    if lib.parseCIDR(text).Some? && QueryOk(q) {
      var net := lib.parseCIDR(text).value;
      ShapedWriteCidr(st, Row(lib.cidrText(net), NewBlock(net, q, now, firstSeen)));
    }
  }

  lemma {:induction false} ShapedErase(lib: NetLib, st: Store, ip: string, text: string)
    requires Shaped(st)
    ensures Shaped(Step(lib, st, Erase(ip))) && Shaped(Step(lib, st, DropNetwork(text)))
  {
    if lib.parseCIDR(text).Some? {
      ShapedDropCidr(st, lib.cidrText(lib.parseCIDR(text).value));
    }
  }

  lemma {:induction false} ShapedSweep(lib: NetLib, st: Store, cidr: string, now: int)
    requires Shaped(st)
    ensures Shaped(Step(lib, st, EraseCidr(cidr))) && Shaped(Step(lib, st, SweepAll(now)))
  {
    ShapedDropCidr(st, cidr);
    ShapedSweepCidrs(SweepIps(lib, st, ExpiredIps(st.ips, now)), ExpiredCidrs(st.cidrs, now));
  }

  lemma {:induction false} ShapedBan(lib: NetLib, st: Store, d: Decision, firstSeen: int)
    requires Lawful(lib) && Shaped(st)
    ensures Shaped(Step(lib, st, BanDecision(d, firstSeen)))
  {
    DecisionSteps(lib, st, d, firstSeen);
    ApplyAt(lib, st, d, firstSeen, "");
  }

  lemma {:induction false} ShapedLift(lib: NetLib, st: Store, d: Decision)
    requires Lawful(lib) && Shaped(st)
    ensures Shaped(Step(lib, st, LiftDecision(d)))
  {
    DecisionSteps(lib, st, d, 0);
    RemoveAt(lib, st, d, "");
  }

  lemma {:induction false} ShapedPrune(lib: NetLib, st: Store, values: set<string>)
    requires Shaped(st)
    ensures Shaped(Step(lib, st, DropUnlisted(values)))
  {
    DropStaleAt(lib, st, values, "");
  }

  lemma {:induction false} ShapedStep(lib: NetLib, st: Store, op: Op)
    requires Lawful(lib) && Shaped(st)
    ensures Shaped(Step(lib, st, op))
  {
    match op
    case PutAddress(ip, q, now, firstSeen) => ShapedPut(lib, st, ip, q, now, firstSeen);
    case Erase(ip) => ShapedErase(lib, st, ip, "");
    case PutNetwork(text, q, now, firstSeen) => ShapedPutNet(lib, st, text, q, now, firstSeen);
    case DropNetwork(text) => ShapedErase(lib, st, "", text);
    case EraseCidr(cidr) => ShapedSweep(lib, st, cidr, 0);
    case SweepAll(now) => ShapedSweep(lib, st, "", now);
    case BanDecision(d, firstSeen) => ShapedBan(lib, st, d, firstSeen);
    case LiftDecision(d) => ShapedLift(lib, st, d);
    case DropUnlisted(values) => ShapedPrune(lib, st, values);
    case Reboot(m, ips, cidrs) => ShapedRestart(lib, st, m, ips, cidrs);
  }

  /** The shape that the CrowdSec theorems ask for holds in every state of every run, after restarts too. */
  lemma {:induction false} ShapedRun(lib: NetLib, states: seq<Store>, ops: seq<Op>, i: nat)
    requires Lawful(lib) && IsRun(lib, states, ops) && i < |states| && Shaped(states[0])
    ensures Shaped(states[i])
  {
    if i > 0 {
      ShapedRun(lib, states, ops, i - 1);
      ShapedStep(lib, states[i - 1], ops[i - 1]);
    }
  }
}
