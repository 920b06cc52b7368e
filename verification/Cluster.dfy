/** Multi-instance mode end to end: what the handlers write to etcd is what every caught-up follower holds. */
module Cluster {
  import opened Text
  import opened IPv4Text
  import opened Keys
  import opened SliceMap
  import opened Records
  import opened Replay
  import opened EtcdLog
  import opened Mirror
  import opened Store
  import opened Restart
  import opened CrowdSec
  import Effects
  import LoadFold
  import Runs
  import Watchers

  /** One call to etcd. */
  datatype Change = Save(key: string, value: Value) | Cut(key: string)

  function SaveAddress(ip: IP, e: BlockEntry): seq<Change> {
    [Save(RblKey(ip), Block(RecordOf(e))), Save(ReverseKey(ip), Ptr(REVERSE_HOST, PTR_TTL))]
  }

  function CutAddress(ip: IP): seq<Change> {
    [Cut(RblKey(ip)), Cut(ReverseKey(ip))]
  }

  function SaveNetwork(c: string, b: CIDRBlock): seq<Change> {
    [Save(CidrToEtcdKey(c), Block(RecordOfCIDR(b)))]
  }

  /** The operations that make their calls once and in order; a sweep or a reconcile is a series of them. */
  predicate Direct(op: Runs.Op) {
    !op.SweepAll? && !op.DropUnlisted? && !op.Reboot?
  }

  /** The calls an operation makes, which do not depend on the mode. */
  function Changes(lib: NetLib, op: Runs.Op): seq<Change> {
    match op
    case PutAddress(text, q, now, firstSeen) =>
      var ip := ParseIP(lib, text);
      if ip.Some? && QueryOk(q) then SaveAddress(ip.value, NewEntry(text, q, now, firstSeen)) else []
    case Erase(text) =>
      var ip := ParseIP(lib, text);
      if ip.Some? then CutAddress(ip.value) else []
    case PutNetwork(text, q, now, firstSeen) =>
      var net := lib.parseCIDR(text);
      if net.Some? && QueryOk(q) then SaveNetwork(lib.cidrText(net.value), NewBlock(net.value, q, now, firstSeen)) else []
    case DropNetwork(text) =>
      var net := lib.parseCIDR(text);
      if net.Some? then [Cut(CidrToEtcdKey(lib.cidrText(net.value)))] else []
    case EraseCidr(cidr) => [Cut(CidrToEtcdKey(cidr))]
    case BanDecision(d, firstSeen) => BanChanges(lib, d, firstSeen)
    case LiftDecision(d) => LiftChanges(lib, d)
    case _ => []
  }

  function BanChanges(lib: NetLib, d: Decision, firstSeen: int): seq<Change> {
    var net, ip := lib.parseCIDR(d.value), ParseIP(lib, d.value);
    if '/' in d.value then
      if net.Some? then SaveNetwork(lib.cidrText(net.value), CsBlock(net.value, d, firstSeen)) else []
    else if ip.Some? then SaveAddress(ip.value, CsEntry(IPText(lib, ip.value), d, firstSeen))
    else []
  }

  function LiftChanges(lib: NetLib, d: Decision): seq<Change> {
    var net, ip := lib.parseCIDR(d.value), ParseIP(lib, d.value);
    if '/' in d.value then
      if net.Some? then [Cut(CidrToEtcdKey(lib.cidrText(net.value)))] else []
    else if ip.Some? then CutAddress(ip.value)
    else []
  }

  function ApplyOne(etcd: map<string, Value>, c: Change): map<string, Value> {
    match c
    case Save(k, v) => etcd[k := v]
    case Cut(k) => etcd - {k}
  }

  function ApplyAll(etcd: map<string, Value>, cs: seq<Change>): map<string, Value> {
    if cs == [] then etcd else ApplyOne(ApplyAll(etcd, cs[..|cs| - 1]), cs[|cs| - 1])
  }

  lemma {:induction false} ApplyShort(etcd: map<string, Value>, a: Change, b: Change)
    ensures ApplyAll(etcd, [a]) == ApplyOne(etcd, a) && ApplyAll(etcd, [a, b]) == ApplyOne(ApplyOne(etcd, a), b)
  {
    assert [a][..0] == [] && [a, b][..1] == [a];
    assert ApplyAll(etcd, []) == etcd;
  }

  lemma {:induction false} AddressChanges(st: Store, text: string, ip: IP, e: BlockEntry)
    ensures ApplyAll(st.etcd, SaveAddress(ip, e)) == WriteIp(st, text, ip, e).etcd
    ensures ApplyAll(st.etcd, CutAddress(ip)) == Forget(st.etcd, ip)
  {
    ApplyShort(st.etcd, Save(RblKey(ip), Block(RecordOf(e))), Save(ReverseKey(ip), Ptr(REVERSE_HOST, PTR_TTL)));
    ApplyShort(st.etcd, Cut(RblKey(ip)), Cut(ReverseKey(ip)));
  }

  lemma {:induction false} NetworkChanges(st: Store, e: CIDREntry)
    ensures ApplyAll(st.etcd, SaveNetwork(e.key, e.val)) == WriteCidr(st, e).etcd
    ensures ApplyAll(st.etcd, [Cut(CidrToEtcdKey(e.key))]) == DropCidr(st, e.key).etcd
  {
    ApplyShort(st.etcd, Save(CidrToEtcdKey(e.key), Block(RecordOfCIDR(e.val))), Cut(""));
    ApplyShort(st.etcd, Cut(CidrToEtcdKey(e.key)), Cut(""));
  }

  const NO_ENTRY := EntryOf("", ZERO_RECORD, 0, 0)
  const NO_BLOCK := CIDREntryOf("", Network(V4(0), 0), ZERO_RECORD).val

  lemma {:induction false} PutChanges(lib: NetLib, st: Store, text: string, q: PutQuery, now: int, firstSeen: int)
    ensures PutIpAs(lib, st, text, q, now, firstSeen).etcd
            == ApplyAll(st.etcd, Changes(lib, Runs.PutAddress(text, q, now, firstSeen)))
  {
    if ParseIP(lib, text).Some? {
      AddressChanges(st, text, ParseIP(lib, text).value, NewEntry(text, q, now, firstSeen));
    }
  }

  lemma {:induction false} PutNetChanges(lib: NetLib, st: Store, text: string, q: PutQuery, now: int, firstSeen: int)
    ensures PutNetAs(lib, st, text, q, now, firstSeen).etcd
            == ApplyAll(st.etcd, Changes(lib, Runs.PutNetwork(text, q, now, firstSeen)))
  {
    if lib.parseCIDR(text).Some? {
      var net := lib.parseCIDR(text).value;
      NetworkChanges(st, Row(lib.cidrText(net), NewBlock(net, q, now, firstSeen)));
    }
  }

  lemma {:induction false} EraseChanges(lib: NetLib, st: Store, text: string)
    ensures DropIp(lib, st, text).etcd == ApplyAll(st.etcd, Changes(lib, Runs.Erase(text)))
  {
    if ParseIP(lib, text).Some? {
      AddressChanges(st, text, ParseIP(lib, text).value, NO_ENTRY);
    }
  }

  lemma {:induction false} DropNetChanges(lib: NetLib, st: Store, text: string)
    ensures DropNet(lib, st, text).etcd == ApplyAll(st.etcd, Changes(lib, Runs.DropNetwork(text)))
  {
    if lib.parseCIDR(text).Some? {
      NetworkChanges(st, Row(lib.cidrText(lib.parseCIDR(text).value), NO_BLOCK));
    }
  }

  lemma {:induction false} EraseCidrChanges(lib: NetLib, st: Store, c: string)
    ensures DropCidr(st, c).etcd == ApplyAll(st.etcd, Changes(lib, Runs.EraseCidr(c)))
  {
    NetworkChanges(st, Row(c, NO_BLOCK));
  }

  lemma {:induction false} DecisionChanges(lib: NetLib, st: Store, d: Decision, firstSeen: int)
    ensures CsWrite(lib, st, d, firstSeen).etcd == ApplyAll(st.etcd, BanChanges(lib, d, firstSeen))
    ensures CsRemove(lib, st, d).etcd == ApplyAll(st.etcd, LiftChanges(lib, d))
  {
    if '/' in d.value {
      if lib.parseCIDR(d.value).Some? {
        var net := lib.parseCIDR(d.value).value;
        NetworkChanges(st, Row(lib.cidrText(net), CsBlock(net, d, firstSeen)));
      }
    } else if ParseIP(lib, d.value).Some? {
      var ip := ParseIP(lib, d.value).value;
      AddressChanges(st, IPText(lib, ip), ip, CsEntry(IPText(lib, ip), d, firstSeen));
    }
  }

  ghost predicate DoesChanges(lib: NetLib, st: Store, op: Runs.Op) {
    Runs.Step(lib, st, op).etcd == ApplyAll(st.etcd, Changes(lib, op))
  }

  lemma {:induction false} PutStep(lib: NetLib, st: Store, text: string, q: PutQuery, now: int, firstSeen: int)
    ensures DoesChanges(lib, st, Runs.PutAddress(text, q, now, firstSeen))
  {
    PutChanges(lib, st, text, q, now, firstSeen);
  }

  lemma {:induction false} PutNetStep(lib: NetLib, st: Store, text: string, q: PutQuery, now: int, firstSeen: int)
    ensures DoesChanges(lib, st, Runs.PutNetwork(text, q, now, firstSeen))
  {
    PutNetChanges(lib, st, text, q, now, firstSeen);
  }

  lemma {:induction false} EraseSteps(lib: NetLib, st: Store, text: string)
    ensures DoesChanges(lib, st, Runs.Erase(text)) && DoesChanges(lib, st, Runs.DropNetwork(text))
    ensures DoesChanges(lib, st, Runs.EraseCidr(text))
  {
    EraseChanges(lib, st, text);
    DropNetChanges(lib, st, text);
    EraseCidrChanges(lib, st, text);
  }

  lemma {:induction false} DoesIf(lib: NetLib, st: Store, op: Runs.Op, st': Store, cs: seq<Change>)
    requires Runs.Step(lib, st, op) == st' && Changes(lib, op) == cs && st'.etcd == ApplyAll(st.etcd, cs)
    ensures DoesChanges(lib, st, op)
  {
  }

  lemma {:induction false} BanCalls(lib: NetLib, d: Decision, firstSeen: int)
    ensures Changes(lib, Runs.BanDecision(d, firstSeen)) == BanChanges(lib, d, firstSeen)
  {
  }

  lemma {:induction false} LiftCalls(lib: NetLib, d: Decision)
    ensures Changes(lib, Runs.LiftDecision(d)) == LiftChanges(lib, d)
  {
  }

  lemma {:induction false} BanStep(lib: NetLib, st: Store, d: Decision, firstSeen: int)
    ensures DoesChanges(lib, st, Runs.BanDecision(d, firstSeen))
  {
    Runs.DecisionSteps(lib, st, d, firstSeen);
    DecisionChanges(lib, st, d, firstSeen);
    BanCalls(lib, d, firstSeen);
    DoesIf(lib, st, Runs.BanDecision(d, firstSeen), CsWrite(lib, st, d, firstSeen), BanChanges(lib, d, firstSeen));
  }

  lemma {:induction false} LiftStep(lib: NetLib, st: Store, d: Decision)
    ensures DoesChanges(lib, st, Runs.LiftDecision(d))
  {
    Runs.DecisionSteps(lib, st, d, 0);
    DecisionChanges(lib, st, d, 0);
    LiftCalls(lib, d);
    DoesIf(lib, st, Runs.LiftDecision(d), CsRemove(lib, st, d), LiftChanges(lib, d));
  }

  /** In either mode an operation does to etcd exactly its calls. */
  lemma {:induction false} StepChanges(lib: NetLib, st: Store, op: Runs.Op)
    requires Direct(op)
    ensures DoesChanges(lib, st, op)
  {
    match op
    case PutAddress(text, q, now, firstSeen) => PutStep(lib, st, text, q, now, firstSeen);
    case Erase(text) => EraseSteps(lib, st, text);
    case PutNetwork(text, q, now, firstSeen) => PutNetStep(lib, st, text, q, now, firstSeen);
    case DropNetwork(text) => EraseSteps(lib, st, text);
    case EraseCidr(cidr) => EraseSteps(lib, st, cidr);
    case BanDecision(d, firstSeen) => BanStep(lib, st, d, firstSeen);
    case LiftDecision(d) => LiftStep(lib, st, d);
  }

  /** In multi-instance mode it does nothing to the tables. */
  lemma {:induction false} TablesUntouched(lib: NetLib, st: Store, op: Runs.Op)
    requires Direct(op) && st.multi
    ensures Runs.Step(lib, st, op) == st.(etcd := Runs.Step(lib, st, op).etcd)
  {
  }

  // ---- The log ------------------------------------------------------------

  /** What etcd appends for a call; deleting an absent key is no event. */
  function EventOf(etcd: map<string, Value>, c: Change): seq<Event> {
    match c
    case Save(k, v) => [Put(k, v)]
    case Cut(k) => if k in etcd then [Delete(k)] else []
  }

  function Events(etcd: map<string, Value>, cs: seq<Change>): seq<Event> {
    if cs == [] then []
    else
      var init := cs[..|cs| - 1];
      Events(etcd, init) + EventOf(ApplyAll(etcd, init), cs[|cs| - 1])
  }

  /** The log ends in these keys and values. */
  ghost predicate Tracks(log: seq<Event>, etcd: map<string, Value>) {
    HasValues(StateAt(log, |log|), etcd)
  }

  lemma {:induction false} StatePrefix(log: seq<Event>, more: seq<Event>, n: nat)
    requires n <= |log|
    ensures StateAt(log + more, n) == StateAt(log, n)
  {
    if n > 0 {
      StatePrefix(log, more, n - 1);
      assert (log + more)[n - 1] == log[n - 1];
    }
  }

  lemma {:induction false} TracksOne(log: seq<Event>, etcd: map<string, Value>, c: Change)
    requires Tracks(log, etcd)
    ensures Tracks(log + EventOf(etcd, c), ApplyOne(etcd, c))
  {
    var more := EventOf(etcd, c);
    StatePrefix(log, more, |log|);
    if more == [] {
      assert log + more == log;
      assert etcd - {c.key} == etcd;
    } else {
      assert (log + more)[|log|] == more[0];
    }
  }

  lemma {:induction false} TracksAll(log: seq<Event>, etcd: map<string, Value>, cs: seq<Change>)
    requires Tracks(log, etcd)
    ensures Tracks(log + Events(etcd, cs), ApplyAll(etcd, cs))
  {
    if cs == [] {
      assert log + [] == log;
    } else {
      var init := cs[..|cs| - 1];
      TracksAll(log, etcd, init);
      TracksOne(log + Events(etcd, init), ApplyAll(etcd, init), cs[|cs| - 1]);
      assert log + Events(etcd, cs)
             == (log + Events(etcd, init)) + EventOf(ApplyAll(etcd, init), cs[|cs| - 1]);
    }
  }

  /** The log that a run of operations, from whichever instances, leaves. */
  function LogAfter(lib: NetLib, log: seq<Event>, states: seq<Store>, ops: seq<Runs.Op>, i: nat): seq<Event>
    requires i < |states| == |ops| + 1
  {
    if i == 0 then log
    else LogAfter(lib, log, states, ops, i - 1) + Events(states[i - 1].etcd, Changes(lib, ops[i - 1]))
  }

  /** Keys of the service and values that decode. */
  ghost predicate Clean(log: seq<Event>) {
    KnownLog(log) && forall i | 0 <= i < |log| && log[i].Put? :: !log[i].value.Malformed?
  }

  ghost predicate CleanSave(c: Change) {
    c.Save? ==> KnownKey(c.key) && !c.value.Malformed?
  }

  lemma {:induction false} CleanOne(log: seq<Event>, etcd: map<string, Value>, c: Change)
    requires Clean(log) && Tracks(log, etcd) && CleanSave(c)
    ensures Clean(log + EventOf(etcd, c))
  {
    var known := (k: string) => KnownKey(k);
    KnownState(log, |log|, known);
    if c.Cut? && c.key in etcd {
      assert c.key in StateAt(log, |log|) && known(c.key);
    }
  }

  lemma {:induction false} CleanAll(log: seq<Event>, etcd: map<string, Value>, cs: seq<Change>)
    requires Clean(log) && Tracks(log, etcd) && forall i | 0 <= i < |cs| :: CleanSave(cs[i])
    ensures Clean(log + Events(etcd, cs))
  {
    if cs == [] {
      assert log + [] == log;
    } else {
      var init := cs[..|cs| - 1];
      assert forall i | 0 <= i < |init| :: init[i] == cs[i];
      CleanAll(log, etcd, init);
      TracksAll(log, etcd, init);
      CleanOne(log + Events(etcd, init), ApplyAll(etcd, init), cs[|cs| - 1]);
      assert log + Events(etcd, cs)
             == (log + Events(etcd, init)) + EventOf(ApplyAll(etcd, init), cs[|cs| - 1]);
    }
  }

  lemma {:induction false} CleanAddress(n: U32, e: BlockEntry)
    ensures forall i | 0 <= i < 2 :: CleanSave(SaveAddress(V4(n), e)[i]) && CleanSave(CutAddress(V4(n))[i])
  {
    KnownAddressKeys(n);
  }

  lemma {:induction false} CleanNetwork(lib: NetLib, text: string, b: CIDRBlock)
    requires Lawful(lib) && lib.parseCIDR(text).Some?
    ensures CleanSave(SaveNetwork(lib.cidrText(lib.parseCIDR(text).value), b)[0])
  {
    KnownCidrKey(lib.cidrText(lib.parseCIDR(text).value));
  }

  lemma {:induction false} CleanBan(lib: NetLib, d: Decision, firstSeen: int)
    requires Lawful(lib) && Runs.IPv4Decision(lib, d)
    ensures forall c | c in BanChanges(lib, d, firstSeen) || c in LiftChanges(lib, d) :: CleanSave(c)
  {
    if '/' in d.value {
      if lib.parseCIDR(d.value).Some? {
        CleanNetwork(lib, d.value, CsBlock(lib.parseCIDR(d.value).value, d, firstSeen));
      }
    } else if ParseIP(lib, d.value).Some? {
      var n := ParseIP(lib, d.value).value.n;
      CleanAddress(n, CsEntry(Dotted(n), d, firstSeen));
    }
  }

  lemma {:induction false} CleanChanges(lib: NetLib, op: Runs.Op)
    requires Lawful(lib) && Direct(op) && Runs.IPv4Op(lib, op)
    ensures forall c | c in Changes(lib, op) :: CleanSave(c)
  {
    match op
    case PutAddress(text, q, now, firstSeen) =>
      if ParseIP(lib, text).Some? {
        CleanAddress(ParseIP(lib, text).value.n, NewEntry(text, q, now, firstSeen));
      }
    case PutNetwork(text, q, now, firstSeen) =>
      if lib.parseCIDR(text).Some? {
        CleanNetwork(lib, text, NewBlock(lib.parseCIDR(text).value, q, now, firstSeen));
      }
    case BanDecision(d, firstSeen) => CleanBan(lib, d, firstSeen);
    case LiftDecision(d) => CleanBan(lib, d, 0);
    case _ =>
  }

  lemma {:induction false} TracksNext(lib: NetLib, log: seq<Event>, st: Store, op: Runs.Op)
    requires Lawful(lib) && Clean(log) && Tracks(log, st.etcd) && Direct(op) && Runs.IPv4Op(lib, op)
    ensures var log' := log + Events(st.etcd, Changes(lib, op));
            Clean(log') && Tracks(log', Runs.Step(lib, st, op).etcd)
  {
    CleanChanges(lib, op);
    CleanAll(log, st.etcd, Changes(lib, op));
    TracksAll(log, st.etcd, Changes(lib, op));
    StepChanges(lib, st, op);
  }

  /** The log of a run of IPv4 operations ends in what etcd holds, and holds nothing a reader stumbles over. */
  lemma {:induction false} LogTracks(
    lib: NetLib, log: seq<Event>, states: seq<Store>, ops: seq<Runs.Op>, i: nat)
    requires Lawful(lib) && Runs.IsRun(lib, states, ops) && i < |states|
    requires Clean(log) && Tracks(log, states[0].etcd)
    requires forall j | 0 <= j < i :: Direct(ops[j]) && Runs.IPv4Op(lib, ops[j])
    ensures Clean(LogAfter(lib, log, states, ops, i)) && Tracks(LogAfter(lib, log, states, ops, i), states[i].etcd)
  {
    if i > 0 {
      LogTracks(lib, log, states, ops, i - 1);
      TracksNext(lib, LogAfter(lib, log, states, ops, i - 1), states[i - 1], ops[i - 1]);
    }
  }

  // ---- Followers ----------------------------------------------------------

  lemma {:induction false} CleanReadable(log: seq<Event>, n: nat)
    requires Clean(log) && n <= |log|
    ensures ReadableAt(log, n) == StateAt(log, n)
  {
    if n > 0 {
      CleanReadable(log, n - 1);
    }
  }

  /** An instance whose streams have handed on the whole log, on a run that meets the step conditions. */
  ghost predicate CaughtUp(lib: NetLib, log: seq<Event>, states: seq<Watchers.State>, steps: seq<Watchers.Step>, i: nat) {
    && Watchers.IsRun(lib, log, states, steps) && i < |states|
    && Watchers.IpRunOk(lib, log, states, steps, i) && Watchers.CidrRunOk(lib, log, states, steps, i)
    && states[i].phase.Running? && states[i].ip.next == states[i].cidr.next == states[i].len == |log|
  }

  /** Its tables are the image of etcd, as those of a single instance are. */
  lemma {:induction false} FollowerMirrors(
    lib: NetLib, log: seq<Event>, etcd: map<string, Value>,
    states: seq<Watchers.State>, steps: seq<Watchers.Step>, i: nat)
    requires Lawful(lib) && Clean(log) && Tracks(log, etcd) && CaughtUp(lib, log, states, steps, i)
    ensures IpMirror(false, states[i].ips, Unstamped(etcd))
    ensures Distinct(states[i].cidrs) && CidrMirror(lib, ToMap(states[i].cidrs), Unstamped(etcd))
  {
    LoadFold.KnownIsService(log);
    Watchers.SaneRun(lib, log, states, steps, i);
    Watchers.IpTableIsFold(lib, log, states, steps, i);
    Watchers.CidrTableIsFold(lib, log, states, steps, i);
    IpFoldMirrors(lib, log, |log|);
    CidrFoldMirrors(lib, log, |log|);
    CleanReadable(log, |log|);
    UnstampedIps(states[i].ips, StateAt(log, |log|), etcd);
    UnstampedCidrs(lib, ToMap(states[i].cidrs), StateAt(log, |log|), etcd);
  }

  /** After any run of operations on any instances, every caught-up follower's tables are the image of etcd. */
  lemma {:induction false} FollowersConverge(
    lib: NetLib, log: seq<Event>, stores: seq<Store>, ops: seq<Runs.Op>, j: nat,
    states: seq<Watchers.State>, steps: seq<Watchers.Step>, i: nat)
    requires Lawful(lib) && Runs.IsRun(lib, stores, ops) && j < |stores|
    requires Clean(log) && Tracks(log, stores[0].etcd)
    requires forall k | 0 <= k < j :: Direct(ops[k]) && Runs.IPv4Op(lib, ops[k])
    requires CaughtUp(lib, LogAfter(lib, log, stores, ops, j), states, steps, i)
    ensures IpMirror(false, states[i].ips, Unstamped(stores[j].etcd))
    ensures Distinct(states[i].cidrs) && CidrMirror(lib, ToMap(states[i].cidrs), Unstamped(stores[j].etcd))
  {
    LogTracks(lib, log, stores, ops, j);
    FollowerMirrors(lib, LogAfter(lib, log, stores, ops, j), stores[j].etcd, states, steps, i);
  }

  /** A follower holds an IPv4 address exactly if etcd holds its key, with the times and texts of its record. */
  lemma {:induction false} FollowerHas(
    lib: NetLib, log: seq<Event>, etcd: map<string, Value>,
    states: seq<Watchers.State>, steps: seq<Watchers.Step>, i: nat, n: U32)
    requires Lawful(lib) && Clean(log) && Tracks(log, etcd) && CaughtUp(lib, log, states, steps, i)
    ensures Dotted(n) in states[i].ips <==> RblKey(V4(n)) in etcd
    ensures RblKey(V4(n)) in etcd && etcd[RblKey(V4(n))].Block? ==>
              var e, rec := states[i].ips[Dotted(n)], etcd[RblKey(V4(n))].rec;
              && e.ip == Dotted(n) && e.source == rec.source && e.scenario == rec.scenario && e.action == rec.action
              && e.firstSeen == rec.firstSeen && e.lastSeen == rec.lastSeen && e.expiration == rec.expiration
              && e.returnCode == Parse(rec.host)
  {
    FollowerMirrors(lib, log, etcd, states, steps, i);
    assert IpAt(false, states[i].ips, Unstamped(etcd), Dotted(n));
    DottedIsQuad(n);
    ParseDotted(n);
  }

  /** A DELETE on any multi-instance node reaches every follower. */
  lemma {:induction false} DeleteReaches(
    lib: NetLib, log: seq<Event>, st: Store, n: U32, states: seq<Watchers.State>, steps: seq<Watchers.Step>, i: nat)
    requires Lawful(lib) && Clean(log) && Tracks(log, st.etcd)
    requires CaughtUp(lib, log + Events(st.etcd, Changes(lib, Runs.Erase(Dotted(n)))), states, steps, i)
    ensures Dotted(n) !in states[i].ips
  {
    var cs := Changes(lib, Runs.Erase(Dotted(n)));
    ParseIPDotted(lib, n);
    CleanAddress(n, NO_ENTRY);
    CleanAll(log, st.etcd, cs);
    TracksAll(log, st.etcd, cs);
    EraseChanges(lib, st, Dotted(n));
    Effects.DeleteEffect(lib, st, Dotted(n));
    FollowerHas(lib, log + Events(st.etcd, cs), ApplyAll(st.etcd, cs), states, steps, i, n);
  }

  /** What etcd and its log hold after a PUT. */
  lemma {:induction false} AfterPut(lib: NetLib, log: seq<Event>, st: Store, n: U32, q: PutQuery, now: int)
    requires Clean(log) && Tracks(log, st.etcd) && Effects.Acceptable(q)
    ensures var fs := Effects.Kept(st.ips, Dotted(n), now);
            var cs := Changes(lib, Runs.PutAddress(Dotted(n), q, now, fs));
            var etcd := ApplyAll(st.etcd, cs);
            && Clean(log + Events(st.etcd, cs)) && Tracks(log + Events(st.etcd, cs), etcd)
            && RblKey(V4(n)) in etcd && etcd[RblKey(V4(n))].Block?
            && Effects.Requested(q, now, etcd[RblKey(V4(n))].rec) && etcd[RblKey(V4(n))].rec.firstSeen == fs
  {
    var fs := Effects.Kept(st.ips, Dotted(n), now);
    var cs := Changes(lib, Runs.PutAddress(Dotted(n), q, now, fs));
    ParseIPDotted(lib, n);
    Effects.PutRecords(lib, st, Dotted(n), V4(n), q, now);
    CleanPut(lib, n, q, now, fs);
    CleanAll(log, st.etcd, cs);
    TracksAll(log, st.etcd, cs);
    PutChanges(lib, st, Dotted(n), q, now, fs);
  }

  lemma {:induction false} CleanPut(lib: NetLib, n: U32, q: PutQuery, now: int, firstSeen: int)
    ensures var cs := Changes(lib, Runs.PutAddress(Dotted(n), q, now, firstSeen));
            forall i | 0 <= i < |cs| :: CleanSave(cs[i])
  {
    ParseIPDotted(lib, n);
    CleanAddress(n, NewEntry(Dotted(n), q, now, firstSeen));
  }

  /** So does a PUT, with every field as requested and the first-seen time that its own node kept. */
  lemma {:induction false} PutReaches(
    lib: NetLib, log: seq<Event>, st: Store, n: U32, q: PutQuery, now: int,
    states: seq<Watchers.State>, steps: seq<Watchers.Step>, i: nat)
    requires Lawful(lib) && Clean(log) && Tracks(log, st.etcd) && Effects.Acceptable(q)
    requires var op := Runs.PutAddress(Dotted(n), q, now, Effects.Kept(st.ips, Dotted(n), now));
             CaughtUp(lib, log + Events(st.etcd, Changes(lib, op)), states, steps, i)
    ensures Dotted(n) in states[i].ips
    ensures Effects.AddressRequested(q, now, Dotted(n), Effects.Kept(st.ips, Dotted(n), now), states[i].ips[Dotted(n)])
  {
    var cs := Changes(lib, Runs.PutAddress(Dotted(n), q, now, Effects.Kept(st.ips, Dotted(n), now)));
    AfterPut(lib, log, st, n, q, now);
    FollowerHas(lib, log + Events(st.etcd, cs), ApplyAll(st.etcd, cs), states, steps, i, n);
  }
}
