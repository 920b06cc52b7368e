/** Multi-instance mode: load, then two watch streams that share one stored revision, beside the expiry sweep. */
module Watchers {
  import opened IPv4Text
  import opened Keys
  import opened SliceMap
  import opened Records
  import opened Replay
  import opened EtcdLog
  import opened Mirror
  import opened LoadFold
  import Store

  /** A stream's connection, the first log position it has not handed on, and how far its table may be ahead. */
  datatype Stream = Stream(up: bool, next: nat, ahead: nat)

  datatype Phase = Starting | IpsLoaded | Running

  /** One instance beside an etcd that has appended the first `len` events of its log; `due` is what a sweep collected. */
  datatype State = State(
    len: nat, phase: Phase, cursor: int,
    ips: map<string, BlockEntry>, ip: Stream,
    cidrs: seq<CIDREntry>, cidr: Stream,
    due: set<string>, dueCidrs: set<string>)

  datatype Step =
    | Append
    | LoadIps(kvs: seq<RangeRow>) | LoadCidrs(kvs: seq<RangeRow>)
    | ConnectIp | HeaderIp(rev: int) | DeliverIp | BreakIp
    | ConnectCidr | HeaderCidr(rev: int) | DeliverCidr | BreakCidr
    | CollectIps(now: int) | SweepIp(name: string)
    | CollectCidrs(now: int) | SweepCidr(name: string)

  /** The log position right after a revision: where a watch from `start_revision = rev + 1` begins. */
  function Position(rev: int): nat {
    if rev >= 1 then rev - 1 else 0
  }

  function Max(a: int, b: int): int {
    if a > b then a else b
  }

  ghost predicate Enabled(log: seq<Event>, s: State, step: Step)
    requires s.len <= |log|
  {
    match step
    case Append => s.len < |log|
    case LoadIps(kvs) => s.phase.Starting? && Enumerates(kvs, StateAt(log, s.len), RBL_PREFIX_SCAN)
    case LoadCidrs(kvs) => s.phase.IpsLoaded? && Enumerates(kvs, StateAt(log, s.len), CIDR_PREFIX_SCAN)
    case ConnectIp => s.phase.Running? && !s.ip.up
    case ConnectCidr => s.phase.Running? && !s.cidr.up
    // A message's header is the store revision when it was sent; it is stored before the message's events.
    case HeaderIp(rev) => s.ip.up && rev <= RevisionAt(s.len)
    case HeaderCidr(rev) => s.cidr.up && rev <= RevisionAt(s.len)
    case DeliverIp => s.ip.up && s.ip.next < s.len && RevisionAt(s.ip.next + 1) <= s.cursor
    case DeliverCidr => s.cidr.up && s.cidr.next < s.len && RevisionAt(s.cidr.next + 1) <= s.cursor
    case BreakIp => s.ip.up
    case BreakCidr => s.cidr.up
    // The sweep's deletions in etcd are events of the log; its deletions in the tables are these steps.
    case CollectIps(_) => s.phase.Running?
    case CollectCidrs(_) => s.phase.Running?
    case SweepIp(name) => s.phase.Running? && name in s.due
    case SweepCidr(name) => s.phase.Running? && name in s.dueCidrs
  }

  ghost function Do(lib: NetLib, log: seq<Event>, s: State, step: Step): State
    requires s.len <= |log| && Enabled(log, s, step)
  {
    match step
    case Append => s.(len := s.len + 1)
    case LoadIps(kvs) =>
      s.(phase := IpsLoaded, cursor := RevisionAt(s.len), ips := LoadIp(kvs), ip := Stream(false, s.len, s.len))
    case LoadCidrs(kvs) =>
      s.(phase := Running, cidrs := LoadSlice(lib, kvs), cidr := Stream(false, s.len, s.len))
    case ConnectIp => s.(ip := s.ip.(up := true, next := Position(s.cursor)))
    case ConnectCidr => s.(cidr := s.cidr.(up := true, next := Position(s.cursor)))
    case HeaderIp(rev) => s.(cursor := Max(s.cursor, rev))
    case HeaderCidr(rev) => s.(cursor := Max(s.cursor, rev))
    case DeliverIp =>
      s.(ips := Apply(s.ips, IpUpdates(lib, log)[s.ip.next]), ip := s.ip.(next := s.ip.next + 1))
    case DeliverCidr =>
      s.(cidrs := ApplySlice(s.cidrs, CidrUpdates(lib, log)[s.cidr.next]),
         cidr := s.cidr.(next := s.cidr.next + 1))
    case BreakIp => s.(ip := s.ip.(up := false))
    case BreakCidr => s.(cidr := s.cidr.(up := false))
    case CollectIps(now) => s.(due := Store.ExpiredIps(s.ips, now))
    case CollectCidrs(now) => s.(dueCidrs := set c | c in Store.ExpiredCidrs(s.cidrs, now))
    case SweepIp(name) => s.(ips := s.ips - {name}, ip := s.ip.(ahead := s.len), due := s.due - {name})
    case SweepCidr(name) =>
      s.(cidrs := Removed(s.cidrs, name), cidr := s.cidr.(ahead := s.len), dueCidrs := s.dueCidrs - {name})
  }

  /** A fresh instance beside an etcd that already holds `len` events. */
  function Start(len: nat): State {
    State(len, Starting, 0, map[], Stream(false, 0, 0), [], Stream(false, 0, 0), {}, {})
  }

  /** The states a run passes through, one more than its steps. */
  ghost predicate IsRun(lib: NetLib, log: seq<Event>, states: seq<State>, steps: seq<Step>) {
    && |states| == |steps| + 1
    && (exists len: nat :: len <= |log| && states[0] == Start(len))
    && (forall i | 0 <= i < |states| :: states[i].len <= |log|)
    && forall i | 0 <= i < |steps| ::
         Enabled(log, states[i], steps[i]) && states[i + 1] == Do(lib, log, states[i], steps[i])
  }

  // ---- What every step keeps ----------------------------------------------

  ghost predicate Sane(log: seq<Event>, s: State) {
    && s.len <= |log|
    && (s.phase.Starting? ==> !s.ip.up && !s.cidr.up)
    && (!s.phase.Starting? ==>
          1 <= s.cursor <= RevisionAt(s.len) && s.ip.next <= Position(s.cursor) && s.ip.ahead <= s.len)
    && (s.phase.IpsLoaded? ==> !s.ip.up && !s.cidr.up)
    && (s.phase.Running? ==>
          s.cidr.ahead <= s.len && s.cidr.next <= Max(Position(s.cursor), s.cidr.ahead) && Distinct(s.cidrs))
  }

  lemma {:induction false} SaneStep(lib: NetLib, log: seq<Event>, s: State, step: Step)
    requires Sane(log, s) && Enabled(log, s, step)
    ensures Sane(log, Do(lib, log, s, step))
  {
    match step
    case LoadCidrs(kvs) => LoadSliceMap(lib, kvs);
    case DeliverCidr => ApplySliceMap(s.cidrs, CidrUpdates(lib, log)[s.cidr.next]);
    case SweepCidr(name) => RemoveMap(s.cidrs, name);
    case _ =>
  }

  /** A sweep only removes what had expired when it collected. */
  lemma {:induction false} CollectsExpired(lib: NetLib, log: seq<Event>, s: State, now: int, k: string)
    requires Sane(log, s) && s.phase.Running?
    ensures k in Do(lib, log, s, CollectIps(now)).due <==> k in s.ips && 0 < s.ips[k].expiration <= now
    ensures k in Do(lib, log, s, CollectCidrs(now)).dueCidrs
            <==> k in ToMap(s.cidrs) && 0 < ToMap(s.cidrs)[k].expiration <= now
  {
    Store.ExpiredCidrsAre(s.cidrs, now, k);
  }

  /** Every key is as the fold had it somewhere between the stream's position and what ran ahead of it. */
  ghost predicate View<K(!new), V>(m: map<K, V>, us: seq<Update<K, V>>, st: Stream) {
    st.next <= |us| && st.ahead <= |us| && Between(m, us, st.next, Max(st.next, st.ahead))
  }

  lemma {:induction false} ViewCaughtUp<K(!new), V>(m: map<K, V>, us: seq<Update<K, V>>, st: Stream)
    requires st.ahead <= st.next <= |us|
    ensures View(m, us, st) <==> m == Fold(us, st.next)
  {
    FoldIsBetween(us, st.next);
    if View(m, us, st) {
      BetweenCaughtUp(m, us, st.next);
    }
  }

  /** A connect keeps the view if the stretch it skips is settled, and only then once past what ran ahead. */
  lemma {:induction false} ViewConnect<K(!new), V>(m: map<K, V>, us: seq<Update<K, V>>, st: Stream, p: nat)
    requires View(m, us, st) && p <= |us| && st.next <= Max(p, st.ahead)
    ensures Settled(m, us, st.next, p) ==> View(m, us, Stream(true, p, st.ahead))
    ensures st.ahead <= p && View(m, us, Stream(true, p, st.ahead)) ==> Settled(m, us, st.next, p)
  {
    if Settled(m, us, st.next, p) {
      if p <= st.next {
        BetweenWiden(m, us, st.next, Max(st.next, st.ahead), p, Max(p, st.ahead));
      } else {
        BetweenSettled(m, us, st.next, Max(st.next, st.ahead), p);
      }
    }
    if st.ahead <= p && View(m, us, Stream(true, p, st.ahead)) {
      BetweenCaughtUp(m, us, p);
      forall i: nat | st.next <= i && LastTouch(us, i, p) ensures Holds(m, us[i]) {
        FoldHoldsLast(us, i, p);
      }
    }
  }

  ghost predicate IpView(lib: NetLib, log: seq<Event>, s: State) {
    !s.phase.Starting? ==> View(s.ips, IpUpdates(lib, log), s.ip)
  }

  ghost predicate CidrView(lib: NetLib, log: seq<Event>, s: State) {
    s.phase.Running? ==> Distinct(s.cidrs) && View(ToMap(s.cidrs), CidrUpdates(lib, log), s.cidr)
  }

  /**
   * What a step must not do to the IP table: load a row that is not current, connect past an event that the table
   * does not reflect, or sweep away an address that is present and that the stream will not take away.
   */
  ghost predicate IpStepOk(lib: NetLib, log: seq<Event>, s: State, step: Step) {
    match step
    case LoadIps(kvs) => Current(IpUpdates(lib, log), kvs, s.len)
    case ConnectIp => Settled(s.ips, IpUpdates(lib, log), s.ip.next, Position(s.cursor))
    case SweepIp(name) => s.ip.next <= |log| && Leaving(IpUpdates(lib, log), s.ip.next, s.len, name)
    case _ => true
  }

  ghost predicate CidrStepOk(lib: NetLib, log: seq<Event>, s: State, step: Step) {
    match step
    case LoadCidrs(_) => s.len <= |log| && NoneLeftBehind(lib, log, s.len)
    case ConnectCidr => Settled(ToMap(s.cidrs), CidrUpdates(lib, log), s.cidr.next, Position(s.cursor))
    case SweepCidr(name) => s.cidr.next <= |log| && Leaving(CidrUpdates(lib, log), s.cidr.next, s.len, name)
    case _ => true
  }

  /** A step keeps the view of the IP table exactly when it is one of these (a connect, once past a sweep). */
  lemma {:induction false} IpStepIff(lib: NetLib, log: seq<Event>, s: State, step: Step)
    requires Lawful(lib) && ServiceLog(log)
    requires Sane(log, s) && IpView(lib, log, s) && Enabled(log, s, step)
    ensures IpStepOk(lib, log, s, step) ==> IpView(lib, log, Do(lib, log, s, step))
    ensures IpView(lib, log, Do(lib, log, s, step)) && (step.ConnectIp? ==> s.ip.ahead <= Position(s.cursor))
            ==> IpStepOk(lib, log, s, step)
  {
    var us := IpUpdates(lib, log);
    match step
    case LoadIps(kvs) =>
      LoadIsFoldIff(lib, log, s.len, kvs);
      ViewCaughtUp(LoadIp(kvs), us, Stream(false, s.len, s.len));
    case ConnectIp => ViewConnect(s.ips, us, s.ip, Position(s.cursor));
    case DeliverIp => BetweenApply(s.ips, us, s.ip.next, Max(s.ip.next, s.ip.ahead));
    case SweepIp(name) => BetweenRemoveIff(s.ips, us, s.ip.next, Max(s.ip.next, s.ip.ahead), s.len, name);
    case _ =>
  }

  lemma {:induction false} CidrStepIff(lib: NetLib, log: seq<Event>, s: State, step: Step)
    requires ServiceLog(log)
    requires Sane(log, s) && CidrView(lib, log, s) && Enabled(log, s, step)
    ensures CidrStepOk(lib, log, s, step) ==> CidrView(lib, log, Do(lib, log, s, step))
    ensures CidrView(lib, log, Do(lib, log, s, step)) && (step.ConnectCidr? ==> s.cidr.ahead <= Position(s.cursor))
            ==> CidrStepOk(lib, log, s, step)
  {
    match step
    case LoadCidrs(kvs) =>
      LoadSliceMap(lib, kvs);
      CidrLoadIsFold(lib, log, s.len, kvs);
      ViewCaughtUp(LoadCidr(lib, kvs), CidrUpdates(lib, log), Stream(false, s.len, s.len));
    case ConnectCidr => ViewConnect(ToMap(s.cidrs), CidrUpdates(lib, log), s.cidr, Position(s.cursor));
    case DeliverCidr => CidrDeliver(s.cidrs, CidrUpdates(lib, log), s.cidr);
    case SweepCidr(name) => CidrSweepIff(s.cidrs, CidrUpdates(lib, log), s.cidr, s.len, name);
    case _ =>
  }

  lemma {:induction false} CidrDeliver(cidrs: seq<CIDREntry>, us: seq<Update<string, CIDRBlock>>, st: Stream)
    requires Distinct(cidrs) && View(ToMap(cidrs), us, st) && st.next < |us|
    ensures var cidrs' := ApplySlice(cidrs, us[st.next]);
            Distinct(cidrs') && View(ToMap(cidrs'), us, st.(next := st.next + 1))
  {
    ApplySliceMap(cidrs, us[st.next]);
    BetweenApply(ToMap(cidrs), us, st.next, Max(st.next, st.ahead));
  }

  lemma {:induction false} CidrSweepIff(
    cidrs: seq<CIDREntry>, us: seq<Update<string, CIDRBlock>>, st: Stream, len: nat, name: string)
    requires Distinct(cidrs) && View(ToMap(cidrs), us, st) && Max(st.next, st.ahead) <= len <= |us|
    ensures Distinct(Removed(cidrs, name))
    ensures View(ToMap(Removed(cidrs, name)), us, st.(ahead := len)) <==> Leaving(us, st.next, len, name)
  {
    RemoveMap(cidrs, name);
    BetweenRemoveIff(ToMap(cidrs), us, st.next, Max(st.next, st.ahead), len, name);
  }

  /** Entries carry their revisions, so a caught-up IP table survives a connect iff the skipped stretch is harmless. */
  lemma {:induction false} ConnectIff(lib: NetLib, log: seq<Event>, s: State)
    requires Sane(log, s) && s.phase.Running? && s.ip.ahead <= s.ip.next
    requires s.ips == Fold(IpUpdates(lib, log), s.ip.next) && Enabled(log, s, ConnectIp)
    ensures s.ips == Fold(IpUpdates(lib, log), Position(s.cursor))
            <==> Harmless(IpUpdates(lib, log), s.ip.next, Position(s.cursor))
  {
    IpUpdatesStamped(lib, log);
    SkipIffHarmless(IpUpdates(lib, log), WrittenFrom, s.ip.next, Position(s.cursor));
  }

  /** Network entries carry none; a caught-up table survives iff it holds what each skipped key's last event leaves. */
  lemma {:induction false} CidrConnectIff(lib: NetLib, log: seq<Event>, s: State)
    requires Sane(log, s) && s.phase.Running? && s.cidr.next <= Position(s.cursor)
    requires ToMap(s.cidrs) == Fold(CidrUpdates(lib, log), s.cidr.next) && Enabled(log, s, ConnectCidr)
    ensures ToMap(s.cidrs) == Fold(CidrUpdates(lib, log), Position(s.cursor))
            <==> Settled(ToMap(s.cidrs), CidrUpdates(lib, log), s.cidr.next, Position(s.cursor))
  {
    SkipIffSettled(CidrUpdates(lib, log), s.cidr.next, Position(s.cursor));
  }

  // ---- Whole runs ---------------------------------------------------------

  lemma {:induction false} SaneRun(lib: NetLib, log: seq<Event>, states: seq<State>, steps: seq<Step>, i: nat)
    requires IsRun(lib, log, states, steps) && i < |states|
    ensures Sane(log, states[i])
  {
    if i > 0 {
      SaneRun(lib, log, states, steps, i - 1);
      SaneStep(lib, log, states[i - 1], steps[i - 1]);
    }
  }

  ghost predicate IpRunOk(lib: NetLib, log: seq<Event>, states: seq<State>, steps: seq<Step>, i: nat)
    requires i < |states| == |steps| + 1
  {
    forall j | 0 <= j < i :: IpStepOk(lib, log, states[j], steps[j])
  }

  ghost predicate CidrRunOk(lib: NetLib, log: seq<Event>, states: seq<State>, steps: seq<Step>, i: nat)
    requires i < |states| == |steps| + 1
  {
    forall j | 0 <= j < i :: CidrStepOk(lib, log, states[j], steps[j])
  }

  lemma {:induction false} IpViewRun(lib: NetLib, log: seq<Event>, states: seq<State>, steps: seq<Step>, i: nat)
    requires Lawful(lib) && ServiceLog(log)
    requires IsRun(lib, log, states, steps) && i < |states| && IpRunOk(lib, log, states, steps, i)
    ensures IpView(lib, log, states[i])
  {
    if i > 0 {
      IpViewRun(lib, log, states, steps, i - 1);
      SaneRun(lib, log, states, steps, i - 1);
      IpStepIff(lib, log, states[i - 1], steps[i - 1]);
    }
  }

  lemma {:induction false} CidrViewRun(lib: NetLib, log: seq<Event>, states: seq<State>, steps: seq<Step>, i: nat)
    requires ServiceLog(log)
    requires IsRun(lib, log, states, steps) && i < |states| && CidrRunOk(lib, log, states, steps, i)
    ensures CidrView(lib, log, states[i])
  {
    if i > 0 {
      CidrViewRun(lib, log, states, steps, i - 1);
      SaneRun(lib, log, states, steps, i - 1);
      CidrStepIff(lib, log, states[i - 1], steps[i - 1]);
    }
  }

  /** In every such run the IP table is the fold of the log, once the stream is past what a sweep ran ahead. */
  lemma {:induction false} IpTableIsFold(lib: NetLib, log: seq<Event>, states: seq<State>, steps: seq<Step>, i: nat)
    requires Lawful(lib) && ServiceLog(log)
    requires IsRun(lib, log, states, steps) && i < |states| && IpRunOk(lib, log, states, steps, i)
    requires !states[i].phase.Starting? && states[i].ip.ahead <= states[i].ip.next
    ensures states[i].ip.next <= |log| && states[i].ips == Fold(IpUpdates(lib, log), states[i].ip.next)
  {
    IpViewRun(lib, log, states, steps, i);
    ViewCaughtUp(states[i].ips, IpUpdates(lib, log), states[i].ip);
  }

  /** Though loaded after the stored revision and replayed from it, the CIDR table is the fold once caught up. */
  lemma {:induction false} CidrTableIsFold(lib: NetLib, log: seq<Event>, states: seq<State>, steps: seq<Step>, i: nat)
    requires ServiceLog(log)
    requires IsRun(lib, log, states, steps) && i < |states| && CidrRunOk(lib, log, states, steps, i)
    requires states[i].phase.Running? && states[i].cidr.ahead <= states[i].cidr.next
    ensures states[i].cidr.next <= |log| && Distinct(states[i].cidrs)
    ensures ToMap(states[i].cidrs) == Fold(CidrUpdates(lib, log), states[i].cidr.next)
  {
    CidrViewRun(lib, log, states, steps, i);
    ViewCaughtUp(ToMap(states[i].cidrs), CidrUpdates(lib, log), states[i].cidr);
  }

  /** Only a sweep makes the IP table run ahead of its stream. */
  lemma {:induction false} NeverAhead(lib: NetLib, log: seq<Event>, states: seq<State>, steps: seq<Step>, i: nat)
    requires IsRun(lib, log, states, steps) && i < |states| && forall j | 0 <= j < i :: !steps[j].SweepIp?
    ensures states[i].ip.ahead <= states[i].ip.next
  {
    if i > 0 {
      NeverAhead(lib, log, states, steps, i - 1);
      SaneRun(lib, log, states, steps, i - 1);
    }
  }

  ghost predicate IpIsFold(lib: NetLib, log: seq<Event>, s: State) {
    !s.phase.Starting? ==> s.ip.next <= |log| && s.ips == Fold(IpUpdates(lib, log), s.ip.next)
  }

  /** Without sweeps the IP table is the fold throughout a run exactly when every load and connect is as above. */
  lemma {:induction false} AlwaysFoldIff(lib: NetLib, log: seq<Event>, states: seq<State>, steps: seq<Step>, i: nat)
    requires Lawful(lib) && ServiceLog(log) && IsRun(lib, log, states, steps) && i < |states|
    requires forall j | 0 <= j < i :: !steps[j].SweepIp?
    ensures (forall j | 0 <= j <= i :: IpIsFold(lib, log, states[j])) <==> IpRunOk(lib, log, states, steps, i)
  {
    if IpRunOk(lib, log, states, steps, i) {
      forall j | 0 <= j <= i ensures IpIsFold(lib, log, states[j]) {
        NeverAhead(lib, log, states, steps, j);
        if !states[j].phase.Starting? {
          IpTableIsFold(lib, log, states, steps, j);
        }
      }
    } else if forall j | 0 <= j <= i :: IpIsFold(lib, log, states[j]) {
      forall j | 0 <= j < i ensures IpStepOk(lib, log, states[j], steps[j]) {
        FoldStepOk(lib, log, states, steps, j);
      }
    }
  }

  lemma {:induction false} FoldStepOk(lib: NetLib, log: seq<Event>, states: seq<State>, steps: seq<Step>, j: nat)
    requires Lawful(lib) && ServiceLog(log) && IsRun(lib, log, states, steps) && j < |steps|
    requires forall k | 0 <= k <= j :: !steps[k].SweepIp?
    requires IpIsFold(lib, log, states[j]) && IpIsFold(lib, log, states[j + 1])
    ensures IpStepOk(lib, log, states[j], steps[j])
  {
    SaneRun(lib, log, states, steps, j);
    NeverAhead(lib, log, states, steps, j);
    NeverAhead(lib, log, states, steps, j + 1);
    var s, s', us := states[j], states[j + 1], IpUpdates(lib, log);
    if !s.phase.Starting? {
      ViewCaughtUp(s.ips, us, s.ip);
    }
    if !s'.phase.Starting? {
      ViewCaughtUp(s'.ips, us, s'.ip);
    }
    IpStepIff(lib, log, s, steps[j]);
  }

  ghost predicate CidrIsFold(lib: NetLib, log: seq<Event>, s: State) {
    s.phase.Running? && s.cidr.ahead <= s.cidr.next ==>
      Distinct(s.cidrs) && s.cidr.next <= |log| && ToMap(s.cidrs) == Fold(CidrUpdates(lib, log), s.cidr.next)
  }

  /** The connect starts at or before the stream's position, or past what ran ahead of it. */
  ghost predicate ConnectsClear(s: State, step: Step) {
    step.ConnectCidr? ==> Position(s.cursor) <= s.cidr.next || s.cidr.ahead <= Position(s.cursor)
  }

  ghost predicate ClearRun(states: seq<State>, steps: seq<Step>, i: nat)
    requires i < |states| == |steps| + 1
  {
    forall j | 0 <= j < i :: !steps[j].SweepCidr? && ConnectsClear(states[j], steps[j])
  }

  ghost predicate CidrFolds(lib: NetLib, log: seq<Event>, states: seq<State>, i: nat)
    requires i < |states|
  {
    forall j | 0 <= j <= i :: CidrIsFold(lib, log, states[j])
  }

  /** Without sweeps the network table is the fold whenever it is past its load exactly when loads and connects are as above. */
  lemma {:induction false} CidrAlwaysFoldIff(lib: NetLib, log: seq<Event>, states: seq<State>, steps: seq<Step>, i: nat)
    requires ServiceLog(log) && IsRun(lib, log, states, steps) && i < |states| && ClearRun(states, steps, i)
    ensures CidrFolds(lib, log, states, i) <==> CidrRunOk(lib, log, states, steps, i)
  {
    if CidrRunOk(lib, log, states, steps, i) {
      forall j | 0 <= j <= i ensures CidrIsFold(lib, log, states[j]) {
        if states[j].phase.Running? && states[j].cidr.ahead <= states[j].cidr.next {
          CidrTableIsFold(lib, log, states, steps, j);
        }
      }
    } else if CidrFolds(lib, log, states, i) {
      CidrFoldsOk(lib, log, states, steps, i, i);
    }
  }

  lemma {:induction false} CidrRunOkNext(lib: NetLib, log: seq<Event>, states: seq<State>, steps: seq<Step>, i: nat)
    requires 0 < i < |states| == |steps| + 1
    requires CidrRunOk(lib, log, states, steps, i - 1) && CidrStepOk(lib, log, states[i - 1], steps[i - 1])
    ensures CidrRunOk(lib, log, states, steps, i)
  {
  }

  lemma {:induction false} CidrFoldsOk(
    lib: NetLib, log: seq<Event>, states: seq<State>, steps: seq<Step>, i: nat, n: nat)
    requires ServiceLog(log) && IsRun(lib, log, states, steps) && i <= n < |states|
    requires ClearRun(states, steps, n) && CidrFolds(lib, log, states, n)
    ensures CidrRunOk(lib, log, states, steps, i)
  {
    if i > 0 {
      CidrFoldsOk(lib, log, states, steps, i - 1, n);
      CidrFoldStepOk(lib, log, states, steps, i - 1);
      CidrRunOkNext(lib, log, states, steps, i);
    }
  }

  lemma {:induction false} CidrFoldStepOk(lib: NetLib, log: seq<Event>, states: seq<State>, steps: seq<Step>, j: nat)
    requires ServiceLog(log) && IsRun(lib, log, states, steps) && j < |steps|
    requires !steps[j].SweepCidr? && ConnectsClear(states[j], steps[j]) && CidrRunOk(lib, log, states, steps, j)
    requires CidrIsFold(lib, log, states[j + 1])
    ensures CidrStepOk(lib, log, states[j], steps[j])
  {
    var s, s', us := states[j], states[j + 1], CidrUpdates(lib, log);
    SaneRun(lib, log, states, steps, j);
    CidrViewRun(lib, log, states, steps, j);
    if steps[j].LoadCidrs? || (steps[j].ConnectCidr? && s.cidr.ahead <= Position(s.cursor)) {
      SaneRun(lib, log, states, steps, j + 1);
      ViewCaughtUp(ToMap(s'.cidrs), us, s'.cidr);
      CidrStepIff(lib, log, s, steps[j]);
    }
  }

  /** In particular when loaded rows are current and each connect finds everything up to the stored revision handed on. */
  lemma {:induction false} IpTableIsFoldIfDelivered(
    lib: NetLib, log: seq<Event>, states: seq<State>, steps: seq<Step>, i: nat)
    requires Lawful(lib) && ServiceLog(log) && IsRun(lib, log, states, steps) && i < |states|
    requires forall j | 0 <= j < i :: !steps[j].SweepIp?
    requires forall j | 0 <= j < i && steps[j].ConnectIp? :: states[j].ip.next == Position(states[j].cursor)
    requires forall j | 0 <= j < i && steps[j].LoadIps? ::
               Current(IpUpdates(lib, log), steps[j].kvs, states[j].len)
    ensures IpIsFold(lib, log, states[i])
  {
    forall j | 0 <= j < i ensures IpStepOk(lib, log, states[j], steps[j]) {
      assert steps[j].ConnectIp? ==> states[j].ip.next == Position(states[j].cursor);
    }
    AlwaysFoldIff(lib, log, states, steps, i);
  }

  /** Streams that have handed on the whole log leave what a fresh load gives exactly if its rows are current. */
  lemma {:induction false} NothingLost(
    lib: NetLib, log: seq<Event>, states: seq<State>, steps: seq<Step>, i: nat,
    ips: seq<RangeRow>, cidrs: seq<RangeRow>)
    requires Lawful(lib) && ServiceLog(log) && IsRun(lib, log, states, steps) && i < |states|
    requires IpRunOk(lib, log, states, steps, i) && CidrRunOk(lib, log, states, steps, i)
    requires states[i].phase.Running? && states[i].ip.next == states[i].cidr.next == states[i].len
    requires Enumerates(ips, StateAt(log, states[i].len), RBL_PREFIX_SCAN)
    requires Enumerates(cidrs, StateAt(log, states[i].len), CIDR_PREFIX_SCAN)
    ensures states[i].ips == LoadIp(ips) <==> Current(IpUpdates(lib, log), ips, states[i].len)
    ensures Distinct(states[i].cidrs)
    ensures ToMap(states[i].cidrs) == LoadCidr(lib, cidrs) <==> NoneLeftBehind(lib, log, states[i].len)
  {
    SaneRun(lib, log, states, steps, i);
    IpTableIsFold(lib, log, states, steps, i);
    CidrTableIsFold(lib, log, states, steps, i);
    LoadIsFoldIff(lib, log, states[i].len, ips);
    CidrLoadIsFold(lib, log, states[i].len, cidrs);
  }

  /** Two instances at the same place in one log hold the same tables, whenever each loaded, broke or swept. */
  lemma {:induction false} InstancesAgree(
    lib: NetLib, log: seq<Event>,
    states: seq<State>, steps: seq<Step>, i: nat, states': seq<State>, steps': seq<Step>, i': nat)
    requires Lawful(lib) && ServiceLog(log)
    requires IsRun(lib, log, states, steps) && i < |states| && IsRun(lib, log, states', steps') && i' < |states'|
    requires IpRunOk(lib, log, states, steps, i) && CidrRunOk(lib, log, states, steps, i)
    requires IpRunOk(lib, log, states', steps', i') && CidrRunOk(lib, log, states', steps', i')
    requires states[i].phase.Running? && states'[i'].phase.Running?
    requires states[i].ip.next == states'[i'].ip.next && states[i].cidr.next == states'[i'].cidr.next
    requires states[i].ip.ahead <= states[i].ip.next && states'[i'].ip.ahead <= states'[i'].ip.next
    requires states[i].cidr.ahead <= states[i].cidr.next && states'[i'].cidr.ahead <= states'[i'].cidr.next
    ensures states[i].ips == states'[i'].ips
    ensures Distinct(states[i].cidrs) && Distinct(states'[i'].cidrs) && ToMap(states[i].cidrs) == ToMap(states'[i'].cidrs)
  {
    IpTableIsFold(lib, log, states, steps, i);
    IpTableIsFold(lib, log, states', steps', i');
    CidrTableIsFold(lib, log, states, steps, i);
    CidrTableIsFold(lib, log, states', steps', i');
  }

  // ---- Runs that lose a write ---------------------------------------------

  /** Some run takes these steps and ends in this state. */
  ghost predicate Reaches(lib: NetLib, log: seq<Event>, steps: seq<Step>, s: State) {
    exists states :: IsRun(lib, log, states, steps) && states[|states| - 1] == s
  }

  lemma {:induction false} RunExtend(lib: NetLib, log: seq<Event>, states: seq<State>, steps: seq<Step>, step: Step, s': State)
    requires IsRun(lib, log, states, steps)
    requires var s := states[|states| - 1]; Enabled(log, s, step) && s' == Do(lib, log, s, step) && s'.len <= |log|
    ensures IsRun(lib, log, states + [s'], steps + [step])
  {
    var ss, ts := states + [s'], steps + [step];
    assert ss[0] == states[0];
    assert forall i | 0 <= i < |states| :: ss[i] == states[i];
    assert forall i | 0 <= i < |steps| :: ts[i] == steps[i];
  }

  lemma {:induction false} ReachNext(lib: NetLib, log: seq<Event>, steps: seq<Step>, s: State, step: Step, s': State)
    requires Reaches(lib, log, steps, s)
    requires s.len <= |log| && Enabled(log, s, step) && s' == Do(lib, log, s, step) && s'.len <= |log|
    ensures Reaches(lib, log, steps + [step], s')
  {
    var states :| IsRun(lib, log, states, steps) && states[|states| - 1] == s;
    RunExtend(lib, log, states, steps, step, s');
    assert (states + [s'])[|states|] == s';
  }

  /** An instance that loaded an empty etcd. */
  function Loaded(): State {
    Start(0).(phase := Running, cursor := 1)
  }

  const LOADS: seq<Step> := [] + [LoadIps([])] + [LoadCidrs([])]

  lemma {:induction false} ReachLoaded(lib: NetLib, log: seq<Event>)
    ensures Reaches(lib, log, LOADS, Loaded())
  {
    var states := [Start(0)];
    assert states[0] == Start(0);
    assert IsRun(lib, log, states, []);
    var s := Start(0).(phase := IpsLoaded, cursor := 1);
    ReachNext(lib, log, [], Start(0), LoadIps([]), s);
    ReachNext(lib, log, [] + [LoadIps([])], s, LoadCidrs([]), Loaded());
  }

  /** Load, one write, one stream connects and is sent a header, then the other connects past the write. */
  const CIDR_FIRST: seq<Step> := LOADS + [Append] + [ConnectCidr] + [HeaderCidr(2)] + [ConnectIp]
  const IP_FIRST: seq<Step> := LOADS + [Append] + [ConnectIp] + [HeaderIp(2)] + [ConnectCidr]

  /** No break is needed: the CIDR stream's header moves the shared revision before the IP stream connects. */
  lemma {:induction false} SharedRevisionLosesAWrite(lib: NetLib, n: U32) returns (log: seq<Event>, s: State)
    ensures ServiceLog(log) && Reaches(lib, log, CIDR_FIRST, s) && s.ip.next == s.len == |log|
    ensures s.ips == map[] && Dotted(n) in Fold(IpUpdates(lib, log), s.ip.next)
  {
    var key := RblKey(V4(n));
    log := [Put(key, Block(ZERO_RECORD))];
    assert IsRblKey(key, n) && HasRbl(key);
    s := CidrFirstRun(lib, log);
    IpPosition(lib, log, 0, n);
    FoldOne(IpUpdates(lib, log));
  }

  lemma {:induction false} CidrFirstRun(lib: NetLib, log: seq<Event>) returns (s: State)
    requires |log| == 1
    ensures Reaches(lib, log, CIDR_FIRST, s) && s.ip.next == s.len == 1 && s.ips == map[]
  {
    var s1 := Loaded().(len := 1);
    var s2 := s1.(cidr := Stream(true, 0, 0));
    var s3 := s2.(cursor := 2);
    s := s3.(ip := Stream(true, 1, 0));
    ReachLoaded(lib, log);
    ReachNext(lib, log, LOADS, Loaded(), Append, s1);
    ReachNext(lib, log, LOADS + [Append], s1, ConnectCidr, s2);
    ReachNext(lib, log, LOADS + [Append] + [ConnectCidr], s2, HeaderCidr(2), s3);
    ReachNext(lib, log, LOADS + [Append] + [ConnectCidr] + [HeaderCidr(2)], s3, ConnectIp, s);
  }

  /** The same loss on the network table, when the IP stream connects first. */
  lemma {:induction false} SharedRevisionLosesANetwork(lib: NetLib, c: string) returns (log: seq<Event>, s: State)
    requires lib.parseCIDR(c).Some? && '_' !in c && c != ""
    ensures ServiceLog(log) && Reaches(lib, log, IP_FIRST, s) && s.cidr.next == s.len == |log|
    ensures s.cidrs == [] && c in Fold(CidrUpdates(lib, log), s.cidr.next)
  {
    var key := CidrToEtcdKey(c);
    log := [Put(key, Block(ZERO_RECORD))];
    assert IsCidrKey(key, c) && HasCidr(key);
    s := IpFirstRun(lib, log);
    CidrPosition(lib, log, 0, c);
    FoldOne(CidrUpdates(lib, log));
  }

  lemma {:induction false} IpFirstRun(lib: NetLib, log: seq<Event>) returns (s: State)
    requires |log| == 1
    ensures Reaches(lib, log, IP_FIRST, s) && s.cidr.next == s.len == 1 && s.cidrs == []
  {
    var s1 := Loaded().(len := 1);
    var s2 := s1.(ip := Stream(true, 0, 0));
    var s3 := s2.(cursor := 2);
    s := s3.(cidr := Stream(true, 1, 0));
    ReachLoaded(lib, log);
    ReachNext(lib, log, LOADS, Loaded(), Append, s1);
    ReachNext(lib, log, LOADS + [Append], s1, ConnectIp, s2);
    ReachNext(lib, log, LOADS + [Append] + [ConnectIp], s2, HeaderIp(2), s3);
    ReachNext(lib, log, LOADS + [Append] + [ConnectIp] + [HeaderIp(2)], s3, ConnectCidr, s);
  }

  lemma {:induction false} FoldOne<K, V>(us: seq<Update<K, V>>)
    requires |us| == 1
    ensures Fold(us, 1) == Apply(map[], us[0])
  {
    assert Fold(us, 0) == map[];
  }

  /** What the watchers see of a write or a deletion under a key they know. */
  lemma {:induction false} IpPosition(lib: NetLib, log: seq<Event>, i: nat, n: U32)
    requires i < |log| && log[i].key == RblKey(V4(n)) && (log[i].Put? ==> log[i].value.Block?)
    ensures var u := IpUpdates(lib, log)[i];
            && !u.Skip? && u.key == Dotted(n)
            && (if log[i].Put? then u.Set? && u.val.expiration == log[i].value.rec.expiration else u.Unset?)
  {
    IpFromRblKey(lib, n);
    DottedNotEmpty(n);
    KeyPrefixes(V4(n), "");
  }

  lemma {:induction false} CidrPosition(lib: NetLib, log: seq<Event>, i: nat, c: string)
    requires i < |log| && log[i].key == CidrToEtcdKey(c) && log[i].Put? && log[i].value.Block?
    requires lib.parseCIDR(c).Some? && '_' !in c && c != ""
    ensures CidrUpdates(lib, log)[i].Set? && CidrUpdates(lib, log)[i].key == c
  {
    CidrKeyRoundTrip(c);
    KeyPrefixes(V4(0), c);
  }

  /** A block is written and handed on; it expires and the sweep collects it. */
  const COLLECTED: seq<Step> := LOADS + [ConnectIp] + [Append] + [HeaderIp(2)] + [DeliverIp] + [CollectIps(1)]

  /** The sweep deletes it in etcd, it is written again, and both are handed on before the sweep gets to the table. */
  const REWRITTEN: seq<Step> := COLLECTED + [Append] + [Append] + [HeaderIp(4)] + [DeliverIp] + [DeliverIp]

  function LateSweep(name: string): seq<Step> {
    REWRITTEN + [SweepIp(name)]
  }

  /** The first block expires at 1, the second never. */
  function RewrittenLog(key: string): seq<Event> {
    [Put(key, Block(ZERO_RECORD.(expiration := 1))), Delete(key), Put(key, Block(ZERO_RECORD))]
  }

  lemma {:induction false} RewrittenUpdates(lib: NetLib, n: U32)
    ensures var log := RewrittenLog(RblKey(V4(n)));
            var us := IpUpdates(lib, log);
            && ServiceLog(log)
            && us[0].Set? && us[0].key == Dotted(n) && us[0].val.expiration == 1
            && us[2].Set? && us[2].key == Dotted(n) && us[2].val.expiration == 0
  {
    var key := RblKey(V4(n));
    assert IsRblKey(key, n) && HasRbl(key);
    IpPosition(lib, RewrittenLog(key), 0, n);
    IpPosition(lib, RewrittenLog(key), 2, n);
  }

  /** A write handed on between the sweep's deletion in etcd and its deletion in the table is lost. */
  lemma {:induction false} LateSweepLosesAWrite(lib: NetLib, n: U32) returns (log: seq<Event>, s: State)
    ensures log == RewrittenLog(RblKey(V4(n)))
    ensures ServiceLog(log) && Reaches(lib, log, LateSweep(Dotted(n)), s) && s.ip.next == s.len == |log| == 3
    ensures Dotted(n) !in s.ips && Dotted(n) in Fold(IpUpdates(lib, log), 3)
    ensures !Expired(Fold(IpUpdates(lib, log), 3)[Dotted(n)].expiration, 1)
  {
    log := RewrittenLog(RblKey(V4(n)));
    RewrittenUpdates(lib, n);
    FoldEndsSet(IpUpdates(lib, log), 2);
    s := LateSweepRun(lib, log, Dotted(n));
  }

  lemma {:induction false} FoldEndsSet<K, V>(us: seq<Update<K, V>>, i: nat)
    requires i < |us| && us[i].Set?
    ensures us[i].key in Fold(us, i + 1) && Fold(us, i + 1)[us[i].key] == us[i].val
  {
  }

  lemma {:induction false} LateSweepRun(lib: NetLib, log: seq<Event>, name: string) returns (s: State)
    requires |log| == 3
    requires var u := IpUpdates(lib, log)[0]; u.Set? && u.key == name && u.val.expiration == 1
    ensures Reaches(lib, log, LateSweep(name), s) && s.ip.next == s.len == 3 && name !in s.ips
  {
    var c := CollectedRun(lib, log, name);
    var c1 := c.(len := 2);
    var c2 := c.(len := 3);
    var c3 := c.(len := 3, cursor := 4);
    ReachNext(lib, log, COLLECTED, c, Append, c1);
    ReachNext(lib, log, COLLECTED + [Append], c1, Append, c2);
    ReachNext(lib, log, COLLECTED + [Append] + [Append], c2, HeaderIp(4), c3);
    var s1 := HandOn(lib, log, COLLECTED + [Append] + [Append] + [HeaderIp(4)], c3);
    var s2 := HandOn(lib, log, COLLECTED + [Append] + [Append] + [HeaderIp(4)] + [DeliverIp], s1);
    s := s2.(ips := s2.ips - {name}, ip := s2.ip.(ahead := s2.len), due := s2.due - {name});
    ReachNext(lib, log, REWRITTEN, s2, SweepIp(name), s);
  }

  lemma {:induction false} CollectedRun(lib: NetLib, log: seq<Event>, name: string) returns (s: State)
    requires |log| == 3
    requires var u := IpUpdates(lib, log)[0]; u.Set? && u.key == name && u.val.expiration == 1
    ensures Reaches(lib, log, COLLECTED, s) && name in s.due
    ensures s == Loaded().(len := 1, cursor := 2, ips := s.ips, ip := Stream(true, 1, 0), due := s.due)
  {
    var u := Loaded().(ip := Stream(true, 0, 0));
    var w := u.(len := 1);
    var v := w.(cursor := 2);
    ReachLoaded(lib, log);
    ReachNext(lib, log, LOADS, Loaded(), ConnectIp, u);
    ReachNext(lib, log, LOADS + [ConnectIp], u, Append, w);
    ReachNext(lib, log, LOADS + [ConnectIp] + [Append], w, HeaderIp(2), v);
    var d := HandOn(lib, log, LOADS + [ConnectIp] + [Append] + [HeaderIp(2)], v);
    s := d.(due := Store.ExpiredIps(d.ips, 1));
    ReachNext(lib, log, LOADS + [ConnectIp] + [Append] + [HeaderIp(2)] + [DeliverIp], d, CollectIps(1), s);
  }

  lemma {:induction false} HandOn(lib: NetLib, log: seq<Event>, steps: seq<Step>, s: State) returns (s': State)
    requires Reaches(lib, log, steps, s) && s.ip.up && s.ip.next < s.len <= |log| && s.ip.next + 2 <= s.cursor
    ensures Reaches(lib, log, steps + [DeliverIp], s')
    ensures s' == s.(ips := Apply(s.ips, IpUpdates(lib, log)[s.ip.next]), ip := s.ip.(next := s.ip.next + 1))
  {
    s' := s.(ips := Apply(s.ips, IpUpdates(lib, log)[s.ip.next]), ip := s.ip.(next := s.ip.next + 1));
    ReachNext(lib, log, steps, s, DeliverIp, s');
  }

  lemma {:induction false} HandOnCidr(lib: NetLib, log: seq<Event>, steps: seq<Step>, s: State) returns (s': State)
    requires Reaches(lib, log, steps, s) && s.cidr.up && s.cidr.next < s.len <= |log| && s.cidr.next + 2 <= s.cursor
    ensures Reaches(lib, log, steps + [DeliverCidr], s')
    ensures s' == s.(cidrs := ApplySlice(s.cidrs, CidrUpdates(lib, log)[s.cidr.next]), cidr := s.cidr.(next := s.cidr.next + 1))
  {
    s' := s.(cidrs := ApplySlice(s.cidrs, CidrUpdates(lib, log)[s.cidr.next]), cidr := s.cidr.(next := s.cidr.next + 1));
    ReachNext(lib, log, steps, s, DeliverCidr, s');
  }
}
