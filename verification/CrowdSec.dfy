/** Synchronisation with CrowdSec: the startup reconcile, the delta polls, and why they agree. */
module CrowdSec {
  import opened Text
  import opened IPv4Text
  import opened Keys
  import opened SliceMap
  import opened Records
  import opened Replay
  import opened Store

  /** A decision with the clock reading and the expiration at which it is applied. */
  datatype Decision = Decision(
    value: string, kind: string, origin: string, scenario: string, now: int, expiration: int)

  function SourceOf(d: Decision): (s: string)
    ensures FromCrowdSec(s)
  {
    if d.origin != "" && d.origin != "crowdsec" then "crowdsec:" + d.origin else "crowdsec"
  }

  predicate FromCrowdSec(source: string) {
    HasPrefix(source, "crowdsec")
  }

  /** The table key a decision stands for, if its value is valid. */
  function Canonical(lib: NetLib, d: Decision): Option<string> {
    if '/' in d.value then
      match lib.parseCIDR(d.value)
      case None => None
      case Some(net) => Some(lib.cidrText(net))
    else
      match ParseIP(lib, d.value)
      case None => None
      case Some(ip) => Some(IPText(lib, ip))
  }

  function CanonSet(lib: NetLib, ds: seq<Decision>): set<string> {
    if ds == [] then {}
    else
      var c := Canonical(lib, ds[|ds| - 1]);
      CanonSet(lib, ds[..|ds| - 1]) + if c.Some? then {c.value} else {}
  }

  function CsEntry(ipstr: string, d: Decision, firstSeen: int): BlockEntry {
    BlockEntry(ipstr, SourceOf(d), d.scenario, d.kind, 0, 0, firstSeen, d.now, d.expiration, DEFAULT_CODE)
  }

  function CsBlock(net: Network, d: Decision, firstSeen: int): CIDRBlock {
    CIDRBlock(net, SourceOf(d), d.scenario, d.kind, DEFAULT_CODE, firstSeen, d.now, d.expiration)
  }

  /** The first-seen time that applying a decision keeps: the entry's, unless it is absent or an expired address. */
  function LookFirst(lib: NetLib, st: Store, d: Decision): int {
    if '/' in d.value then
      match lib.parseCIDR(d.value)
      case None => d.now
      case Some(net) => FirstSeenCidr(st.cidrs, lib.cidrText(net), d.now)
    else
      match ParseIP(lib, d.value)
      case None => d.now
      case Some(ip) => FirstSeen(LookupIp(st.ips, IPText(lib, ip), d.now), d.now)
  }

  /** The deletions that this lookup starts: one, if it finds an expired address. */
  function CsQueue(lib: NetLib, st: Store, d: Decision): seq<string> {
    if '/' in d.value then []
    else
      match ParseIP(lib, d.value)
      case None => []
      case Some(ip) =>
        var k := IPText(lib, ip);
        if k in st.ips && Expired(st.ips[k].expiration, d.now) then [k] else []
  }

  function CsWrite(lib: NetLib, st: Store, d: Decision, firstSeen: int): Store {
    if '/' in d.value then
      match lib.parseCIDR(d.value)
      case None => st
      case Some(net) => WriteCidr(st, Row(lib.cidrText(net), CsBlock(net, d, firstSeen)))
    else
      match ParseIP(lib, d.value)
      case None => st
      case Some(ip) => WriteIp(st, IPText(lib, ip), ip, CsEntry(IPText(lib, ip), d, firstSeen))
  }

  function CsRemove(lib: NetLib, st: Store, d: Decision): Store {
    if '/' in d.value then
      match lib.parseCIDR(d.value)
      case None => st
      case Some(net) => DropCidr(st, lib.cidrText(net))
    else
      match ParseIP(lib, d.value)
      case None => st
      case Some(ip) =>
        st.(etcd := Forget(st.etcd, ip), ips := if st.multi then st.ips else st.ips - {IPText(lib, ip)})
  }

  function StaleIps(st: Store, values: set<string>): set<string> {
    set ip | ip in st.ips && FromCrowdSec(st.ips[ip].source) && ip !in values
  }

  function StaleCidrs(s: seq<CIDREntry>, values: set<string>): seq<string> {
    if s == [] then []
    else
      var e := s[|s| - 1];
      StaleCidrs(s[..|s| - 1], values)
      + if FromCrowdSec(e.val.source) && e.key !in values then [e.key] else []
  }

  function DropIps(lib: NetLib, st: Store, names: set<string>): Store {
    st.(etcd := st.etcd - AddressKeys(lib, names), ips := if st.multi then st.ips else st.ips - names)
  }

  function DropCidrs(st: Store, names: seq<string>): Store {
    if names == [] then st else DropCidr(DropCidrs(st, names[..|names| - 1]), names[|names| - 1])
  }

  function DropStale(lib: NetLib, st: Store, values: set<string>): Store {
    DropCidrs(DropIps(lib, st, StaleIps(st, values)), StaleCidrs(st.cidrs, values))
  }

  // ---- What the poller does, in order -------------------------------------

  datatype Action = Prune(values: set<string>) | Ban(d: Decision) | Unban(d: Decision)

  function CsAct(lib: NetLib, st: Store, a: Action): Store {
    match a
    case Prune(values) => DropStale(lib, st, values)
    case Ban(d) => CsWrite(lib, st, d, LookFirst(lib, st, d))
    case Unban(d) => CsRemove(lib, st, d)
  }

  /** The store after a list of actions, as long as none of the started deletions runs. */
  function ActAll(lib: NetLib, st: Store, acts: seq<Action>): Store {
    if acts == [] then st else CsAct(lib, ActAll(lib, st, acts[..|acts| - 1]), acts[|acts| - 1])
  }

  function Started(lib: NetLib, st: Store, a: Action): seq<string> {
    if a.Ban? then CsQueue(lib, st, a.d) else []
  }

  /** The deletions that the list starts. */
  function QueuedAll(lib: NetLib, st: Store, acts: seq<Action>): seq<string> {
    if acts == [] then []
    else
      var init, a := acts[..|acts| - 1], acts[|acts| - 1];
      QueuedAll(lib, st, init) + Started(lib, ActAll(lib, st, init), a)
  }

  function Bans(ds: seq<Decision>): seq<Action> {
    if ds == [] then [] else Bans(ds[..|ds| - 1]) + [Ban(ds[|ds| - 1])]
  }

  function Unbans(ds: seq<Decision>): seq<Action> {
    if ds == [] then [] else Unbans(ds[..|ds| - 1]) + [Unban(ds[|ds| - 1])]
  }

  /** The startup response: drop what CrowdSec no longer lists, then apply what it lists. */
  function ReconcileActs(lib: NetLib, ds: seq<Decision>): seq<Action> {
    [Prune(CanonSet(lib, ds))] + Bans(ds)
  }

  datatype Delta = Delta(added: seq<Decision>, deleted: seq<Decision>)

  function PollActs(p: Delta): seq<Action> {
    Bans(p.added) + Unbans(p.deleted)
  }

  function PollsActs(ps: seq<Delta>): seq<Action> {
    if ps == [] then [] else PollsActs(ps[..|ps| - 1]) + PollActs(ps[|ps| - 1])
  }

  lemma {:induction false} ActSnoc(lib: NetLib, st: Store, acts: seq<Action>, a: Action)
    ensures ActAll(lib, st, acts + [a]) == CsAct(lib, ActAll(lib, st, acts), a)
    ensures QueuedAll(lib, st, acts + [a])
            == QueuedAll(lib, st, acts) + Started(lib, ActAll(lib, st, acts), a)
  {
    assert (acts + [a])[..|acts|] == acts;
  }

  ghost predicate OneMore<S(!new)>(
    all: (S, seq<Action>) -> S, queued: (S, seq<Action>) -> seq<string>,
    act: (S, Action) -> S, started: (S, Action) -> seq<string>, s: S, w: seq<Action>, a: Action)
  {
    && all(s, w + [a]) == act(all(s, w), a)
    && queued(s, w + [a]) == queued(s, w) + started(all(s, w), a)
  }

  /** Doing one list after another is doing both, for whatever is done action by action. */
  lemma {:induction false} ConcatAll<S(!new)>(
    all: (S, seq<Action>) -> S, queued: (S, seq<Action>) -> seq<string>,
    act: (S, Action) -> S, started: (S, Action) -> seq<string>, s: S, acts: seq<Action>, more: seq<Action>)
    requires forall t :: all(t, []) == t && queued(t, []) == []
    requires forall t, w, a :: OneMore(all, queued, act, started, t, w, a)
    ensures all(s, acts + more) == all(all(s, acts), more)
    ensures queued(s, acts + more) == queued(s, acts) + queued(all(s, acts), more)
  {
    if more == [] {
      assert acts + more == acts;
    } else {
      var init, a := more[..|more| - 1], more[|more| - 1];
      ConcatAll(all, queued, act, started, s, acts, init);
      assert OneMore(all, queued, act, started, s, acts + init, a);
      assert OneMore(all, queued, act, started, all(s, acts), init, a);
      assert acts + more == (acts + init) + [a] && more == init + [a];
    }
  }

  lemma {:induction false} ActConcat(lib: NetLib, st: Store, acts: seq<Action>, more: seq<Action>)
    ensures ActAll(lib, st, acts + more) == ActAll(lib, ActAll(lib, st, acts), more)
    ensures QueuedAll(lib, st, acts + more)
            == QueuedAll(lib, st, acts) + QueuedAll(lib, ActAll(lib, st, acts), more)
  {
    var all, queued := (s, w) => ActAll(lib, s, w), (s, w) => QueuedAll(lib, s, w);
    var act, started := (s, a) => CsAct(lib, s, a), (s, a) => Started(lib, s, a);
    forall t, w, a ensures OneMore(all, queued, act, started, t, w, a) {
      ActSnoc(lib, t, w, a);
    }
    ConcatAll(all, queued, act, started, st, acts, more);
  }

  // ---- Key shapes ---------------------------------------------------------

  /** Single-instance tables: distinct networks, slashes in their keys and in no address key. */
  ghost predicate Shaped(st: Store) {
    && !st.multi && Distinct(st.cidrs)
    && (forall ip | ip in st.ips :: '/' !in ip)
    && (forall c | c in ToMap(st.cidrs) :: '/' in c)
  }

  lemma {:induction false} CanonicalShape(lib: NetLib, d: Decision)
    requires Lawful(lib) && Canonical(lib, d).Some?
    ensures '/' in Canonical(lib, d).value <==> '/' in d.value
  {
    if '/' !in d.value {
      CanonicalIP(lib, d.value);
    }
  }

  /** The keys of entries that CrowdSec is the source of, across both tables. */
  ghost function CsKeys(st: Store): set<string>
    requires Distinct(st.cidrs)
  {
    (set ip | ip in st.ips && FromCrowdSec(st.ips[ip].source))
    + (set c | c in ToMap(st.cidrs) && FromCrowdSec(ToMap(st.cidrs)[c].source))
  }

  // ---- One decision, one key ----------------------------------------------

  /** Both tables hold the same at this key. */
  ghost predicate SameKey(st: Store, st': Store, k: string) {
    SameAt(st.ips, st'.ips, k) && SameAt(ToMap(st.cidrs), ToMap(st'.cidrs), k)
  }

  /** The key is held by its own table with CrowdSec as the source. */
  ghost predicate HeldByCs(st: Store, k: string) {
    if '/' in k then k in ToMap(st.cidrs) && FromCrowdSec(ToMap(st.cidrs)[k].source)
    else k in st.ips && FromCrowdSec(st.ips[k].source)
  }

  lemma {:induction false} WriteIpAt(st: Store, ipstr: string, ip: IP, e: BlockEntry, k: string)
    requires Shaped(st) && '/' !in ipstr && FromCrowdSec(e.source)
    ensures Shaped(WriteIp(st, ipstr, ip, e))
    ensures if k == ipstr then HeldByCs(WriteIp(st, ipstr, ip, e), k) else SameKey(st, WriteIp(st, ipstr, ip, e), k)
  {
  }

  lemma {:induction false} WriteCidrAt(st: Store, e: CIDREntry, k: string)
    requires Shaped(st) && '/' in e.key && FromCrowdSec(e.val.source)
    ensures Shaped(WriteCidr(st, e))
    ensures if k == e.key then HeldByCs(WriteCidr(st, e), k) else SameKey(st, WriteCidr(st, e), k)
  {
    UpsertMap(st.cidrs, e);
  }

  lemma {:induction false} ApplyAt(lib: NetLib, st: Store, d: Decision, firstSeen: int, k: string)
    requires Lawful(lib) && Shaped(st)
    ensures Shaped(CsWrite(lib, st, d, firstSeen))
    ensures Canonical(lib, d) != Some(k) ==> SameKey(st, CsWrite(lib, st, d, firstSeen), k)
    ensures Canonical(lib, d) == Some(k) ==> HeldByCs(CsWrite(lib, st, d, firstSeen), k)
  {
    if Canonical(lib, d).Some? {
      CanonicalShape(lib, d);
      if '/' in d.value {
        var net := lib.parseCIDR(d.value).value;
        WriteCidrAt(st, Row(lib.cidrText(net), CsBlock(net, d, firstSeen)), k);
      } else {
        var ip := ParseIP(lib, d.value).value;
        WriteIpAt(st, IPText(lib, ip), ip, CsEntry(IPText(lib, ip), d, firstSeen), k);
      }
    }
  }

  lemma {:induction false} RemoveAt(lib: NetLib, st: Store, d: Decision, k: string)
    requires Lawful(lib) && Shaped(st)
    ensures Shaped(CsRemove(lib, st, d))
    ensures Canonical(lib, d) != Some(k) ==> SameKey(st, CsRemove(lib, st, d), k)
    ensures Canonical(lib, d) == Some(k) ==>
              k !in CsRemove(lib, st, d).ips && k !in ToMap(CsRemove(lib, st, d).cidrs)
  {
    if Canonical(lib, d).Some? {
      CanonicalShape(lib, d);
      if '/' in d.value {
        RemoveMap(st.cidrs, lib.cidrText(lib.parseCIDR(d.value).value));
      }
    }
  }

  // ---- Stale entries ------------------------------------------------------

  lemma {:induction false} StaleCidrsAre(s: seq<CIDREntry>, values: set<string>, c: string)
    requires Distinct(s)
    ensures c in StaleCidrs(s, values) <==>
            c in ToMap(s) && FromCrowdSec(ToMap(s)[c].source) && c !in values
  {
    if s != [] {
      var t, e := s[..|s| - 1], s[|s| - 1];
      StaleCidrsAre(t, values, c);
      MapGet(t, e.key);
    }
  }

  lemma {:induction false} DropCidrsMap(st: Store, names: seq<string>)
    requires !st.multi && Distinct(st.cidrs)
    ensures var st' := DropCidrs(st, names);
            && !st'.multi && Distinct(st'.cidrs) && st'.ips == st.ips
            && ToMap(st'.cidrs) == ToMap(st.cidrs) - set n | n in names
  {
    if names != [] {
      var init, c := names[..|names| - 1], names[|names| - 1];
      DropCidrsMap(st, init);
      RemoveMap(DropCidrs(st, init).cidrs, c);
      assert forall n :: n in names <==> n in init || n == c;
    }
  }

  /** Dropping the stale entries removes a key exactly if CrowdSec held it and no longer lists it. */
  lemma {:induction false} DropStaleAt(lib: NetLib, st: Store, values: set<string>, k: string)
    requires Shaped(st)
    ensures Shaped(DropStale(lib, st, values))
    ensures HeldByCs(st, k) && k !in values ==>
              k !in DropStale(lib, st, values).ips && k !in ToMap(DropStale(lib, st, values).cidrs)
    ensures !HeldByCs(st, k) || k in values ==> SameKey(st, DropStale(lib, st, values), k)
  {
    var st1 := DropIps(lib, st, StaleIps(st, values));
    DropCidrsMap(st1, StaleCidrs(st.cidrs, values));
    StaleCidrsAre(st.cidrs, values, k);
  }

  // ---- Keys ----------------------------------------------------------

  lemma {:induction false} InCsKeys(st: Store, k: string)
    requires Shaped(st)
    ensures k in CsKeys(st) <==> HeldByCs(st, k)
  {
  }

  function Named(lib: NetLib, d: Decision): set<string> {
    var c := Canonical(lib, d);
    if c.Some? then {c.value} else {}
  }

  /** CrowdSec's keys after a list of actions, by their names alone. */
  function KeysAfter(lib: NetLib, keys: set<string>, acts: seq<Action>): set<string> {
    if acts == [] then keys
    else
      var before := KeysAfter(lib, keys, acts[..|acts| - 1]);
      match acts[|acts| - 1]
      case Prune(values) => before * values
      case Ban(d) => before + Named(lib, d)
      case Unban(d) => before - Named(lib, d)
  }

  lemma {:induction false} ActAt(lib: NetLib, st: Store, a: Action, k: string)
    requires Lawful(lib) && Shaped(st)
    ensures Shaped(CsAct(lib, st, a))
    ensures HeldByCs(CsAct(lib, st, a), k) <==>
            match a
            case Prune(values) => HeldByCs(st, k) && k in values
            case Ban(d) => HeldByCs(st, k) || k in Named(lib, d)
            case Unban(d) => HeldByCs(st, k) && k !in Named(lib, d)
  {
    match a
    case Prune(values) => DropStaleAt(lib, st, values, k);
    case Ban(d) => ApplyAt(lib, st, d, LookFirst(lib, st, d), k);
    case Unban(d) => RemoveAt(lib, st, d, k);
  }

  /** If no deletion runs in between, CrowdSec's entries are keyed by exactly the names. */
  lemma {:induction false} ActKeys(lib: NetLib, st: Store, acts: seq<Action>)
    requires Lawful(lib) && Shaped(st)
    ensures Shaped(ActAll(lib, st, acts))
    ensures CsKeys(ActAll(lib, st, acts)) == KeysAfter(lib, CsKeys(st), acts)
  {
    if acts != [] {
      var init, a := acts[..|acts| - 1], acts[|acts| - 1];
      ActKeys(lib, st, init);
      var st1 := ActAll(lib, st, init);
      ActAt(lib, st1, a, "");
      forall k ensures k in CsKeys(CsAct(lib, st1, a)) <==> k in KeysAfter(lib, CsKeys(st), acts) {
        ActAt(lib, st1, a, k);
        InCsKeys(st1, k);
        InCsKeys(CsAct(lib, st1, a), k);
      }
    }
  }

  lemma {:induction false} KeysSnoc(lib: NetLib, keys: set<string>, acts: seq<Action>, a: Action)
    ensures var before := KeysAfter(lib, keys, acts);
            KeysAfter(lib, keys, acts + [a]) ==
            match a
            case Prune(values) => before * values
            case Ban(d) => before + Named(lib, d)
            case Unban(d) => before - Named(lib, d)
  {
    assert (acts + [a])[..|acts|] == acts;
  }

  lemma {:induction false} BansKeys(lib: NetLib, keys: set<string>, acts: seq<Action>, ds: seq<Decision>)
    ensures KeysAfter(lib, keys, acts + Bans(ds)) == KeysAfter(lib, keys, acts) + CanonSet(lib, ds)
    ensures KeysAfter(lib, keys, acts + Unbans(ds)) == KeysAfter(lib, keys, acts) - CanonSet(lib, ds)
  {
    if ds == [] {
      assert acts + [] == acts;
    } else {
      var init, d := ds[..|ds| - 1], ds[|ds| - 1];
      BansKeys(lib, keys, acts, init);
      assert acts + Bans(ds) == (acts + Bans(init)) + [Ban(d)];
      assert acts + Unbans(ds) == (acts + Unbans(init)) + [Unban(d)];
      KeysSnoc(lib, keys, acts + Bans(init), Ban(d));
      KeysSnoc(lib, keys, acts + Unbans(init), Unban(d));
      assert CanonSet(lib, ds) == CanonSet(lib, init) + Named(lib, d);
    }
  }

  /** A reconcile leaves exactly the valid values that CrowdSec lists, whatever was held before. */
  lemma {:induction false} ReconcileKeys(lib: NetLib, keys: set<string>, ds: seq<Decision>)
    ensures KeysAfter(lib, keys, ReconcileActs(lib, ds)) == CanonSet(lib, ds)
  {
    var values := CanonSet(lib, ds);
    BansKeys(lib, keys, [Prune(values)], ds);
    KeysSnoc(lib, keys, [], Prune(values));
    assert [] + [Prune(values)] == [Prune(values)];
  }

  /** CrowdSec's own account of which keys are listed after a sequence of deltas. */
  function Listed(lib: NetLib, keys: set<string>, ps: seq<Delta>): set<string> {
    if ps == [] then keys
    else Listed(lib, keys, ps[..|ps| - 1]) + CanonSet(lib, ps[|ps| - 1].added) - CanonSet(lib, ps[|ps| - 1].deleted)
  }

  lemma {:induction false} Assoc<T>(a: seq<T>, b: seq<T>, c: seq<T>)
    ensures a + (b + c) == a + b + c
  {
  }

  /** A poll adds the new keys and then takes the deleted ones away. */
  lemma {:induction false} PollKeys(lib: NetLib, keys: set<string>, acts: seq<Action>, p: Delta)
    ensures KeysAfter(lib, keys, acts + PollActs(p))
            == KeysAfter(lib, keys, acts) + CanonSet(lib, p.added) - CanonSet(lib, p.deleted)
  {
    Assoc(acts, Bans(p.added), Unbans(p.deleted));
    BansKeys(lib, keys, acts, p.added);
    BansKeys(lib, keys, acts + Bans(p.added), p.deleted);
  }

  /** Polls leave CrowdSec's own account of its keys. */
  lemma {:induction false} PollsKeys(lib: NetLib, keys: set<string>, ps: seq<Delta>)
    ensures KeysAfter(lib, keys, PollsActs(ps)) == Listed(lib, keys, ps)
  {
    if ps != [] {
      PollsKeys(lib, keys, ps[..|ps| - 1]);
      PollKeys(lib, keys, PollsActs(ps[..|ps| - 1]), ps[|ps| - 1]);
    }
  }

  /** A deletion spares the entries of other sources exactly if none of them has the decision's key. */
  lemma {:induction false} RemoveSparesOthersIff(lib: NetLib, st: Store, d: Decision)
    requires Lawful(lib) && Shaped(st)
    ensures (forall k | !HeldByCs(st, k) :: SameKey(st, CsRemove(lib, st, d), k))
            <==> !(Canonical(lib, d).Some?
                   && (Canonical(lib, d).value in st.ips || Canonical(lib, d).value in ToMap(st.cidrs))
                   && !HeldByCs(st, Canonical(lib, d).value))
  {
    forall k ensures Canonical(lib, d) != Some(k) ==> SameKey(st, CsRemove(lib, st, d), k) {
      RemoveAt(lib, st, d, k);
    }
    if Canonical(lib, d).Some? {
      RemoveAt(lib, st, d, Canonical(lib, d).value);
    }
  }

  const MANUAL := "openbl"

  /** A ban set by hand, in whatever store, goes when CrowdSec deletes a decision on its address. */
  lemma {:induction false} DeletionTakesManualBan(lib: NetLib, st: Store, d: Decision, k: string)
    requires Lawful(lib) && Shaped(st) && Canonical(lib, d) == Some(k)
    requires k in st.ips && st.ips[k].source == MANUAL
    ensures !HeldByCs(st, k) && k !in CsRemove(lib, st, d).ips
  {
    RemoveAt(lib, st, d, k);
    assert MANUAL[0] == 'o';
  }
}
