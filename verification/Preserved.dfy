/** A block keeps its first-seen time over whole runs of requests, decisions and sweeps. */
module Preserved {
  import opened Text
  import opened IPv4Text
  import opened Keys
  import opened SliceMap
  import opened Records
  import opened Replay
  import opened Store
  import opened CrowdSec
  import opened Effects

  datatype Op =
    | PutAddress(ip: string, q: PutQuery, now: int)
    | PutNetwork(text: string, q: PutQuery, now: int)
    | Erase(ip: string)
    | EraseNetwork(text: string)
    | EraseCidr(cidr: string)
    | Act(a: Action)
    | SweepAll(now: int)

  function Step(lib: NetLib, st: Store, op: Op): Store {
    match op
    case PutAddress(ip, q, now) => PutIp(lib, st, ip, q, now)
    case PutNetwork(text, q, now) => PutNet(lib, st, text, q, now)
    case Erase(ip) => DropIp(lib, st, ip)
    case EraseNetwork(text) => DropNet(lib, st, text)
    case EraseCidr(cidr) => DropCidr(st, cidr)
    case Act(a) => CsAct(lib, st, a)
    case SweepAll(now) => Sweep(lib, st, now)
  }

  ghost predicate IsRun(lib: NetLib, states: seq<Store>, ops: seq<Op>) {
    && |states| == |ops| + 1
    && forall i | 0 <= i < |ops| :: states[i + 1] == Step(lib, states[i], ops[i])
  }

  /** The operation does not delete the address, and finds it unexpired if it looks it up. */
  ghost predicate Spares(lib: NetLib, ips: map<string, BlockEntry>, op: Op, k: string) {
    k in ips ==>
      match op
      case PutAddress(ip, _, now) => ip == k ==> ips[k].expiration <= 0 || now < ips[k].expiration
      case Erase(ip) => ip != k
      case Act(Ban(d)) => Canonical(lib, d) == Some(k) ==> ips[k].expiration <= 0 || d.now < ips[k].expiration
      case Act(Unban(d)) => Canonical(lib, d) != Some(k)
      case Act(Prune(values)) => k in values || !ByCrowdSec(ips[k].source)
      case SweepAll(now) => ips[k].expiration <= 0 || now < ips[k].expiration
      case _ => true
  }

  /** The operation does not delete the network. */
  ghost predicate SparesNet(lib: NetLib, cidrs: map<string, CIDRBlock>, op: Op, k: string) {
    k in cidrs ==>
      match op
      case EraseNetwork(text) => lib.parseCIDR(text).None? || lib.cidrText(lib.parseCIDR(text).value) != k
      case EraseCidr(cidr) => cidr != k
      case Act(Unban(d)) => Canonical(lib, d) != Some(k)
      case Act(Prune(values)) => k in values || !ByCrowdSec(cidrs[k].source)
      case SweepAll(now) => cidrs[k].expiration <= 0 || now < cidrs[k].expiration
      case _ => true
  }

  ghost predicate SameSince(st: Store, st': Store, k: string) {
    k in st.ips ==> k in st'.ips && st'.ips[k].firstSeen == st.ips[k].firstSeen
  }

  ghost predicate SameNetSince(st: Store, st': Store, k: string) {
    k in ToMap(st.cidrs) ==> k in ToMap(st'.cidrs) && ToMap(st'.cidrs)[k].firstSeen == ToMap(st.cidrs)[k].firstSeen
  }

  /** A single instance with distinct networks, as every run keeps it. */
  ghost predicate Sound(st: Store) {
    !st.multi && Distinct(st.cidrs)
  }

  lemma {:induction false} PutKeeps(lib: NetLib, st: Store, ip: string, q: PutQuery, now: int, k: string)
    requires Sound(st)
    ensures var st' := PutIp(lib, st, ip, q, now);
            && Sound(st') && SameNetSince(st, st', k)
            && (Spares(lib, st.ips, PutAddress(ip, q, now), k) ==> SameSince(st, st', k))
  {
    PutRejected(lib, st, ip, q, now);
    if Acceptable(q) && ParseIP(lib, ip).Some? {
      PutEntry(lib, st, ip, ParseIP(lib, ip).value, q, now);
    }
  }

  /** If the one entry that changed carries its own first-seen time on, every entry does. */
  lemma {:induction false} CarriedOn<V(!new)>(
    t: map<string, V>, t': map<string, V>, c: string, p: V -> bool, seen: V -> int, k: string)
    requires OnlyEntry(false, t, t', c, p) && k in t
    requires k == c ==> forall v | p(v) :: seen(v) == seen(t[c])
    ensures k in t' && seen(t'[k]) == seen(t[k])
  {
    if k != c {
      assert SameAt(t, t', k);
    }
  }

  lemma {:induction false} PutNetKeeps(lib: NetLib, st: Store, text: string, q: PutQuery, now: int, k: string)
    requires Sound(st)
    ensures var st' := PutNet(lib, st, text, q, now); Sound(st') && SameSince(st, st', k) && SameNetSince(st, st', k)
  {
    PutRejected(lib, st, text, q, now);
    if Acceptable(q) && lib.parseCIDR(text).Some? {
      var net := lib.parseCIDR(text).value;
      var c, t := lib.cidrText(net), ToMap(st.cidrs);
      PutNetEntry(lib, st, text, net, q, now);
      PutNetIsWrite(lib, st, text, net, q, now);
      DistinctWrite(st, Row(c, NewBlock(net, q, now, KeptNet(t, c, now))));
      if k in t {
        CarriedOn(t, ToMap(PutNet(lib, st, text, q, now).cidrs), c,
                  b => NetworkRequested(q, now, net, KeptNet(t, c, now), b), (b: CIDRBlock) => b.firstSeen, k);
      }
    }
  }

  lemma {:induction false} DistinctWrite(st: Store, e: CIDREntry)
    requires Distinct(st.cidrs)
    ensures Distinct(WriteCidr(st, e).cidrs)
  {
    UpsertMap(st.cidrs, e);
  }

  lemma {:induction false} EraseKeeps(lib: NetLib, st: Store, ip: string, k: string)
    requires Sound(st)
    ensures var st' := DropIp(lib, st, ip); Sound(st') && SameNetSince(st, st', k) && (ip != k ==> SameSince(st, st', k))
  {
    DeleteEffect(lib, st, ip);
  }

  lemma {:induction false} EraseCidrKeeps(lib: NetLib, st: Store, c: string, k: string)
    requires Sound(st)
    ensures var st' := DropCidr(st, c); Sound(st') && SameSince(st, st', k) && (c != k ==> SameNetSince(st, st', k))
  {
    DeleteNetEffect(lib, st, "", c);
    RemoveMap(st.cidrs, c);
  }

  lemma {:induction false} BanNetKeeps(lib: NetLib, st: Store, d: Decision, net: Network, k: string)
    requires Sound(st) && '/' in d.value && lib.parseCIDR(d.value) == Some(net)
    ensures var st' := CsAct(lib, st, Ban(d)); Sound(st') && SameSince(st, st', k) && SameNetSince(st, st', k)
  {
    var c, t := lib.cidrText(net), ToMap(st.cidrs);
    BanNetEntry(lib, st, d, net);
    BanNetIsWrite(lib, st, d, net);
    DistinctWrite(st, Row(c, CsBlock(net, d, KeptNet(t, c, d.now))));
    if k in t {
      CarriedOn(t, ToMap(CsAct(lib, st, Ban(d)).cidrs), c,
                b => NetworkDecided(d, net, KeptNet(t, c, d.now), b), (b: CIDRBlock) => b.firstSeen, k);
    }
  }

  lemma {:induction false} BanIpKeeps(lib: NetLib, st: Store, d: Decision, ip: IP, k: string)
    requires Sound(st) && '/' !in d.value && ParseIP(lib, d.value) == Some(ip)
    requires Spares(lib, st.ips, Act(Ban(d)), k)
    ensures SameSince(st, CsAct(lib, st, Ban(d)), k)
  {
    var x, t := IPText(lib, ip), st.ips;
    BanEntry(lib, st, d, ip);
    if k in t {
      CarriedOn(t, CsAct(lib, st, Ban(d)).ips, x,
                e => AddressDecided(d, x, Kept(t, x, d.now), e), (e: BlockEntry) => e.firstSeen, k);
    }
  }

  lemma {:induction false} BanKeeps(lib: NetLib, st: Store, d: Decision, k: string)
    requires Sound(st)
    ensures var st' := CsAct(lib, st, Ban(d));
            && Sound(st') && SameNetSince(st, st', k)
            && (Spares(lib, st.ips, Act(Ban(d)), k) ==> SameSince(st, st', k))
  {
    if '/' in d.value {
      if lib.parseCIDR(d.value).Some? {
        BanNetKeeps(lib, st, d, lib.parseCIDR(d.value).value, k);
      }
    } else if ParseIP(lib, d.value).Some? {
      var ip := ParseIP(lib, d.value).value;
      BanIsWrite(lib, st, d, ip);
      if Spares(lib, st.ips, Act(Ban(d)), k) {
        BanIpKeeps(lib, st, d, ip, k);
      }
    }
  }

  lemma {:induction false} UnbanKeeps(lib: NetLib, st: Store, d: Decision, k: string)
    requires Sound(st)
    ensures var st' := CsAct(lib, st, Unban(d));
            Sound(st') && (Canonical(lib, d) != Some(k) ==> SameSince(st, st', k) && SameNetSince(st, st', k))
  {
    UnbanEffect(lib, st, d);
    if '/' in d.value && lib.parseCIDR(d.value).Some? {
      EraseCidrKeeps(lib, st, lib.cidrText(lib.parseCIDR(d.value).value), k);
    }
  }

  lemma {:induction false} PruneKeeps(lib: NetLib, st: Store, values: set<string>, k: string)
    requires Sound(st)
    ensures var st' := CsAct(lib, st, Prune(values));
            && Sound(st')
            && (Spares(lib, st.ips, Act(Prune(values)), k) ==> SameSince(st, st', k))
            && (SparesNet(lib, ToMap(st.cidrs), Act(Prune(values)), k) ==> SameNetSince(st, st', k))
  {
    PruneEntries(lib, st, values, k);
    DropCidrsMap(DropIps(lib, st, StaleIps(st, values)), StaleCidrs(st.cidrs, values));
  }

  lemma {:induction false} SweepKeeps(lib: NetLib, st: Store, now: int, k: string)
    requires Sound(st)
    ensures var st' := Sweep(lib, st, now);
            && Sound(st')
            && (Spares(lib, st.ips, SweepAll(now), k) ==> SameSince(st, st', k))
            && (SparesNet(lib, ToMap(st.cidrs), SweepAll(now), k) ==> SameNetSince(st, st', k))
  {
    SweepExact(lib, st, now, k);
    SweepMode(SweepIps(lib, st, ExpiredIps(st.ips, now)), ExpiredCidrs(st.cidrs, now));
  }

  lemma {:induction false} SweepMode(st: Store, names: seq<string>)
    ensures SweepCidrs(st, names).multi == st.multi
  {
    if names != [] {
      SweepMode(st, names[..|names| - 1]);
    }
  }

  lemma {:induction false} StepKeeps(lib: NetLib, st: Store, op: Op, k: string)
    requires Sound(st)
    ensures Sound(Step(lib, st, op))
    ensures Spares(lib, st.ips, op, k) ==> SameSince(st, Step(lib, st, op), k)
    ensures SparesNet(lib, ToMap(st.cidrs), op, k) ==> SameNetSince(st, Step(lib, st, op), k)
  {
    match op
    case PutAddress(ip, q, now) => PutKeeps(lib, st, ip, q, now, k);
    case PutNetwork(text, q, now) => PutNetKeeps(lib, st, text, q, now, k);
    case Erase(ip) => EraseKeeps(lib, st, ip, k);
    case EraseNetwork(text) =>
      if lib.parseCIDR(text).Some? {
        EraseCidrKeeps(lib, st, lib.cidrText(lib.parseCIDR(text).value), k);
      }
    case EraseCidr(cidr) => EraseCidrKeeps(lib, st, cidr, k);
    case Act(Ban(d)) => BanKeeps(lib, st, d, k);
    case Act(Unban(d)) => UnbanKeeps(lib, st, d, k);
    case Act(Prune(values)) => PruneKeeps(lib, st, values, k);
    case SweepAll(now) => SweepKeeps(lib, st, now, k);
  }

  lemma {:induction false} KeptNext(lib: NetLib, first: Store, st: Store, op: Op, st': Store, k: string)
    requires Sound(st) && st' == Step(lib, st, op)
    ensures Sound(st')
    ensures SameSince(first, st, k) && Spares(lib, st.ips, op, k) ==> SameSince(first, st', k)
    ensures SameNetSince(first, st, k) && SparesNet(lib, ToMap(st.cidrs), op, k) ==> SameNetSince(first, st', k)
  {
    StepKeeps(lib, st, op, k);
  }

  /** While an address is not deleted and found unexpired whenever it is written again, its first-seen time stays. */
  lemma {:induction false} FirstSeenKept(lib: NetLib, states: seq<Store>, ops: seq<Op>, i: nat, k: string)
    requires IsRun(lib, states, ops) && i < |states| && Sound(states[0])
    requires forall j | 0 <= j < i :: Spares(lib, states[j].ips, ops[j], k)
    ensures Sound(states[i]) && SameSince(states[0], states[i], k)
  {
    if i > 0 {
      FirstSeenKept(lib, states, ops, i - 1, k);
      KeptNext(lib, states[0], states[i - 1], ops[i - 1], states[i], k);
    }
  }

  /** While a network is not deleted its first-seen time stays. */
  lemma {:induction false} NetFirstSeenKept(lib: NetLib, states: seq<Store>, ops: seq<Op>, i: nat, k: string)
    requires IsRun(lib, states, ops) && i < |states| && Sound(states[0])
    requires forall j | 0 <= j < i :: SparesNet(lib, ToMap(states[j].cidrs), ops[j], k)
    ensures Sound(states[i]) && SameNetSince(states[0], states[i], k)
  {
    if i > 0 {
      NetFirstSeenKept(lib, states, ops, i - 1, k);
      KeptNext(lib, states[0], states[i - 1], ops[i - 1], states[i], k);
    }
  }
}
