/** The CrowdSec poller beside the deletions that its own lookups start, in every order. */
module Poller {
  import opened Text
  import opened IPv4Text
  import opened Keys
  import opened SliceMap
  import opened Records
  import opened Store
  import opened CrowdSec

  /** A decision between the lookup of its old entry and the write of its new one. */
  datatype Looked = Looked(d: Decision, firstSeen: int)

  /** The store, the deletions started and not yet run, and the poller's actions so far. */
  datatype State = State(st: Store, pending: multiset<string>, done: seq<Action>, looked: Option<Looked>)

  datatype Step =
    | Look(d: Decision) | Write
    | Lift(d: Decision) | DropUnlisted(values: set<string>)
    | Finish(ip: string)

  predicate Enabled(s: State, step: Step) {
    match step
    case Look(_) => s.looked.None?
    case Write => s.looked.Some?
    case Lift(_) => s.looked.None?
    case DropUnlisted(_) => s.looked.None?
    case Finish(ip) => ip in s.pending
  }

  function Do(lib: NetLib, s: State, step: Step): State
    requires Enabled(s, step)
  {
    match step
    case Look(d) =>
      s.(pending := s.pending + multiset(CsQueue(lib, s.st, d)), looked := Some(Looked(d, LookFirst(lib, s.st, d))))
    case Write =>
      var l := s.looked.value;
      s.(st := CsWrite(lib, s.st, l.d, l.firstSeen), done := s.done + [Ban(l.d)], looked := None)
    case Lift(d) => s.(st := CsRemove(lib, s.st, d), done := s.done + [Unban(d)])
    case DropUnlisted(values) => s.(st := DropStale(lib, s.st, values), done := s.done + [Prune(values)])
    case Finish(ip) => s.(st := DropIp(lib, s.st, ip), pending := s.pending - multiset{ip})
  }

  function Start(st: Store, pending: multiset<string>): State {
    State(st, pending, [], None)
  }

  /** The state after a schedule, or none if some step is not enabled. */
  function Run(lib: NetLib, s: State, steps: seq<Step>): Option<State> {
    if steps == [] then Some(s)
    else
      match Run(lib, s, steps[..|steps| - 1])
      case None => None
      case Some(t) => if Enabled(t, steps[|steps| - 1]) then Some(Do(lib, t, steps[|steps| - 1])) else None
  }

  lemma {:induction false} RunSnoc(lib: NetLib, s: State, steps: seq<Step>, t: State, step: Step)
    requires Run(lib, s, steps) == Some(t) && Enabled(t, step)
    ensures Run(lib, s, steps + [step]) == Some(Do(lib, t, step))
  {
    assert (steps + [step])[..|steps|] == steps;
  }

  // ---- What every schedule keeps ------------------------------------------

  /** The actions so far, with the one under way. */
  function Work(s: State): seq<Action> {
    s.done + match s.looked case None => [] case Some(l) => [Ban(l.d)]
  }

  /** The keys that deletions pending at the start or started by these actions may take. */
  function AtRisk(lib: NetLib, st: Store, pending: multiset<string>, acts: seq<Action>): set<string> {
    (set k | k in pending) + (set k | k in QueuedAll(lib, st, acts))
  }

  function Unseen(e: BlockEntry): BlockEntry {
    e.(firstSeen := 0)
  }

  ghost predicate BehindAt(t: map<string, BlockEntry>, full: map<string, BlockEntry>, risk: set<string>, k: string) {
    && (k in t ==> k in full && Unseen(t[k]) == Unseen(full[k]))
    && (k in full && k !in t ==> k in risk)
  }

  /** An address table as it would be without the deletions, first-seen times aside, with some keys at risk missing. */
  ghost predicate Behind(t: map<string, BlockEntry>, full: map<string, BlockEntry>, risk: set<string>) {
    forall k :: BehindAt(t, full, risk, k)
  }

  ghost predicate Inv(lib: NetLib, st: Store, pending: multiset<string>, s: State) {
    var full, risk := ActAll(lib, st, s.done), AtRisk(lib, st, pending, Work(s));
    && Shaped(s.st) && s.st.cidrs == full.cidrs
    && (forall k | k in s.pending :: k in risk)
    && Behind(s.st.ips, full.ips, risk)
    && (s.looked.Some? && '/' in s.looked.value.d.value ==>
          s.looked.value.firstSeen == LookFirst(lib, full, s.looked.value.d))
  }

  lemma {:induction false} RiskGrows(lib: NetLib, st: Store, pending: multiset<string>, acts: seq<Action>, a: Action)
    ensures AtRisk(lib, st, pending, acts) <= AtRisk(lib, st, pending, acts + [a])
    ensures a.Ban? ==> forall k | k in CsQueue(lib, ActAll(lib, st, acts), a.d) :: k in AtRisk(lib, st, pending, acts + [a])
  {
    ActSnoc(lib, st, acts, a);
  }

  lemma {:induction false} BehindMore(
    t: map<string, BlockEntry>, full: map<string, BlockEntry>, risk: set<string>, risk': set<string>)
    requires Behind(t, full, risk) && risk <= risk'
    ensures Behind(t, full, risk')
  {
    forall k ensures BehindAt(t, full, risk', k) {
      assert BehindAt(t, full, risk, k);
    }
  }

  lemma {:induction false} LookInv(lib: NetLib, st: Store, pending: multiset<string>, s: State, d: Decision)
    requires Inv(lib, st, pending, s) && s.looked.None?
    ensures Inv(lib, st, pending, Do(lib, s, Look(d)))
  {
    var s' := Do(lib, s, Look(d));
    var full, risk, risk' := ActAll(lib, st, s.done), AtRisk(lib, st, pending, Work(s)), AtRisk(lib, st, pending, Work(s'));
    assert Work(s) == s.done;
    RiskGrows(lib, st, pending, s.done, Ban(d));
    BehindMore(s.st.ips, full.ips, risk, risk');
    forall k | k in CsQueue(lib, s.st, d) ensures k in risk' {
      assert BehindAt(s.st.ips, full.ips, risk, k);
      assert k in CsQueue(lib, full, d);
    }
  }

  /** The same write on both sides, at most the first-seen times apart. */
  lemma {:induction false} BehindWrite(
    t: map<string, BlockEntry>, full: map<string, BlockEntry>, risk: set<string>, x: string, e: BlockEntry, e': BlockEntry)
    requires Behind(t, full, risk) && Unseen(e) == Unseen(e')
    ensures Behind(t[x := e], full[x := e'], risk)
  {
    var t', full' := t[x := e], full[x := e'];
    forall k ensures BehindAt(t', full', risk, k) {
      assert BehindAt(t, full, risk, k);
    }
  }

  lemma {:induction false} BehindDrop(
    t: map<string, BlockEntry>, full: map<string, BlockEntry>, risk: set<string>, x: set<string>, x': set<string>)
    requires Behind(t, full, risk) && forall k | k in t :: k in x <==> k in x'
    ensures Behind(t - x, full - x', risk)
  {
    forall k ensures BehindAt(t - x, full - x', risk, k) {
      assert BehindAt(t, full, risk, k);
    }
  }

  lemma {:induction false} WriteInv(lib: NetLib, st: Store, pending: multiset<string>, s: State)
    requires Lawful(lib) && Shaped(st) && Inv(lib, st, pending, s) && s.looked.Some?
    ensures Inv(lib, st, pending, Do(lib, s, Write))
  {
    var s', d, fs := Do(lib, s, Write), s.looked.value.d, s.looked.value.firstSeen;
    var full, risk := ActAll(lib, st, s.done), AtRisk(lib, st, pending, Work(s));
    ActSnoc(lib, st, s.done, Ban(d));
    ActKeys(lib, st, s.done);
    assert Work(s') == Work(s);
    ApplyAt(lib, s.st, d, fs, "");
    if '/' !in d.value && ParseIP(lib, d.value).Some? {
      var k := IPText(lib, ParseIP(lib, d.value).value);
      BehindWrite(s.st.ips, full.ips, risk, k, CsEntry(k, d, fs), CsEntry(k, d, LookFirst(lib, full, d)));
    }
  }

  lemma {:induction false} BehindRemove(lib: NetLib, st: Store, full: Store, risk: set<string>, d: Decision)
    requires !st.multi && !full.multi && Behind(st.ips, full.ips, risk)
    ensures Behind(CsRemove(lib, st, d).ips, CsRemove(lib, full, d).ips, risk)
    ensures st.cidrs == full.cidrs ==> CsRemove(lib, st, d).cidrs == CsRemove(lib, full, d).cidrs
  {
    if '/' !in d.value && ParseIP(lib, d.value).Some? {
      var k := IPText(lib, ParseIP(lib, d.value).value);
      BehindDrop(st.ips, full.ips, risk, {k}, {k});
    }
  }

  /** An action without a lookup that changes both stores alike keeps the invariant. */
  lemma {:induction false} ActInv(
    lib: NetLib, st: Store, pending: multiset<string>, s: State, s': State, a: Action, full': Store)
    requires Inv(lib, st, pending, s) && s.looked.None? && !a.Ban? && full' == CsAct(lib, ActAll(lib, st, s.done), a)
    requires s' == s.(st := s'.st, done := s.done + [a])
    requires Shaped(s'.st) && s'.st.cidrs == full'.cidrs
    requires Behind(s'.st.ips, full'.ips, AtRisk(lib, st, pending, s.done))
    ensures Inv(lib, st, pending, s')
  {
    assert Work(s) == s.done && Work(s') == s.done + [a];
    ActSnoc(lib, st, s.done, a);
    RiskGrows(lib, st, pending, s.done, a);
    BehindMore(s'.st.ips, full'.ips, AtRisk(lib, st, pending, s.done), AtRisk(lib, st, pending, s.done + [a]));
  }

  lemma {:induction false} LiftInv(lib: NetLib, st: Store, pending: multiset<string>, s: State, d: Decision)
    requires Lawful(lib) && Shaped(st) && Inv(lib, st, pending, s) && s.looked.None?
    ensures Inv(lib, st, pending, Do(lib, s, Lift(d)))
  {
    var full := ActAll(lib, st, s.done);
    assert Work(s) == s.done;
    ActKeys(lib, st, s.done);
    RemoveAt(lib, s.st, d, "");
    BehindRemove(lib, s.st, full, AtRisk(lib, st, pending, s.done), d);
    ActInv(lib, st, pending, s, Do(lib, s, Lift(d)), Unban(d), CsRemove(lib, full, d));
  }

  lemma {:induction false} DropCidrsSame(st: Store, st': Store, names: seq<string>)
    requires st.multi == st'.multi && st.cidrs == st'.cidrs
    ensures DropCidrs(st, names).cidrs == DropCidrs(st', names).cidrs
    ensures DropCidrs(st, names).multi == DropCidrs(st', names).multi == st.multi
  {
    if names != [] {
      DropCidrsSame(st, st', names[..|names| - 1]);
    }
  }

  lemma {:induction false} BehindPrune(lib: NetLib, st: Store, full: Store, risk: set<string>, values: set<string>)
    requires Shaped(st) && Shaped(full) && st.cidrs == full.cidrs && Behind(st.ips, full.ips, risk)
    ensures Behind(DropStale(lib, st, values).ips, DropStale(lib, full, values).ips, risk)
    ensures DropStale(lib, st, values).cidrs == DropStale(lib, full, values).cidrs
  {
    var x, x' := StaleIps(st, values), StaleIps(full, values);
    forall k | k in st.ips ensures k in x <==> k in x' {
      assert BehindAt(st.ips, full.ips, risk, k);
      assert Unseen(st.ips[k]).source == st.ips[k].source && Unseen(full.ips[k]).source == full.ips[k].source;
    }
    BehindDrop(st.ips, full.ips, risk, x, x');
    var names := StaleCidrs(full.cidrs, values);
    DropCidrsSame(DropIps(lib, st, x), DropIps(lib, full, x'), names);
    DropCidrsMap(DropIps(lib, st, x), names);
    DropCidrsMap(DropIps(lib, full, x'), names);
  }

  lemma {:induction false} PruneInv(lib: NetLib, st: Store, pending: multiset<string>, s: State, values: set<string>)
    requires Lawful(lib) && Shaped(st) && Inv(lib, st, pending, s) && s.looked.None?
    ensures Inv(lib, st, pending, Do(lib, s, DropUnlisted(values)))
  {
    var full := ActAll(lib, st, s.done);
    assert Work(s) == s.done;
    ActKeys(lib, st, s.done);
    DropStaleAt(lib, s.st, values, "");
    BehindPrune(lib, s.st, full, AtRisk(lib, st, pending, s.done), values);
    ActInv(lib, st, pending, s, Do(lib, s, DropUnlisted(values)), Prune(values), DropStale(lib, full, values));
  }

  lemma {:induction false} FinishInv(lib: NetLib, st: Store, pending: multiset<string>, s: State, ip: string)
    requires Inv(lib, st, pending, s) && ip in s.pending
    ensures Inv(lib, st, pending, Do(lib, s, Finish(ip)))
  {
    var s' := Do(lib, s, Finish(ip));
    var full, risk := ActAll(lib, st, s.done), AtRisk(lib, st, pending, Work(s));
    assert Work(s') == Work(s);
    forall k ensures BehindAt(s'.st.ips, full.ips, risk, k) {
      assert BehindAt(s.st.ips, full.ips, risk, k);
    }
  }

  lemma {:induction false} InvRun(lib: NetLib, st: Store, pending: multiset<string>, steps: seq<Step>, s: State)
    requires Lawful(lib) && Shaped(st) && Run(lib, Start(st, pending), steps) == Some(s)
    ensures Inv(lib, st, pending, s)
  {
    if steps != [] {
      var t := Run(lib, Start(st, pending), steps[..|steps| - 1]).value;
      InvRun(lib, st, pending, steps[..|steps| - 1], t);
      match steps[|steps| - 1]
      case Look(d) => LookInv(lib, st, pending, t, d);
      case Write => WriteInv(lib, st, pending, t);
      case Lift(d) => LiftInv(lib, st, pending, t, d);
      case DropUnlisted(values) => PruneInv(lib, st, pending, t, values);
      case Finish(ip) => FinishInv(lib, st, pending, t, ip);
    }
  }

  // ---- Key sets under every schedule --------------------------------------

  /** Whenever the deletions run, CrowdSec's keys are those its decisions name, except some of the keys at risk. */
  lemma {:induction false} ScheduleKeys(lib: NetLib, st: Store, pending: multiset<string>, steps: seq<Step>, s: State)
    requires Lawful(lib) && Shaped(st) && Run(lib, Start(st, pending), steps) == Some(s)
    ensures Shaped(s.st)
    ensures CsKeys(s.st) <= KeysAfter(lib, CsKeys(st), s.done)
    ensures KeysAfter(lib, CsKeys(st), s.done) - AtRisk(lib, st, pending, Work(s)) <= CsKeys(s.st)
  {
    InvRun(lib, st, pending, steps, s);
    ActKeys(lib, st, s.done);
    var full, risk := ActAll(lib, st, s.done), AtRisk(lib, st, pending, Work(s));
    forall k ensures k in CsKeys(s.st) ==> k in CsKeys(full)
             ensures k in CsKeys(full) && k !in risk ==> k in CsKeys(s.st) {
      HeldBehind(s.st, full, risk, k);
      InCsKeys(s.st, k);
      InCsKeys(full, k);
    }
  }

  lemma {:induction false} HeldBehind(st: Store, full: Store, risk: set<string>, k: string)
    requires st.cidrs == full.cidrs && Behind(st.ips, full.ips, risk)
    ensures HeldByCs(st, k) ==> HeldByCs(full, k)
    ensures HeldByCs(full, k) && k !in risk ==> HeldByCs(st, k)
  {
    assert BehindAt(st.ips, full.ips, risk, k);
    if k in st.ips {
      assert Unseen(st.ips[k]).source == st.ips[k].source && Unseen(full.ips[k]).source == full.ips[k].source;
    }
  }

  /** After the startup reconcile CrowdSec's entries are keyed by the valid values it listed, up to keys at risk. */
  lemma {:induction false} ReconcileSchedule(
    lib: NetLib, st: Store, pending: multiset<string>, ds: seq<Decision>, steps: seq<Step>, s: State)
    requires Lawful(lib) && Shaped(st) && Run(lib, Start(st, pending), steps) == Some(s)
    requires s.done == ReconcileActs(lib, ds) && s.looked.None?
    ensures Shaped(s.st) && CsKeys(s.st) <= CanonSet(lib, ds)
    ensures CanonSet(lib, ds) - AtRisk(lib, st, pending, ReconcileActs(lib, ds)) <= CsKeys(s.st)
  {
    assert Work(s) == s.done;
    ScheduleKeys(lib, st, pending, steps, s);
    ReconcileKeys(lib, CsKeys(st), ds);
  }

  /** Any sequence of polls leaves CrowdSec's own account of its keys, up to keys at risk. */
  lemma {:induction false} PollsSchedule(
    lib: NetLib, st: Store, pending: multiset<string>, ps: seq<Delta>, steps: seq<Step>, s: State)
    requires Lawful(lib) && Shaped(st) && Run(lib, Start(st, pending), steps) == Some(s)
    requires s.done == PollsActs(ps) && s.looked.None?
    ensures Shaped(s.st) && CsKeys(s.st) <= Listed(lib, CsKeys(st), ps)
    ensures Listed(lib, CsKeys(st), ps) - AtRisk(lib, st, pending, PollsActs(ps)) <= CsKeys(s.st)
  {
    assert Work(s) == s.done;
    ScheduleKeys(lib, st, pending, steps, s);
    PollsKeys(lib, CsKeys(st), ps);
  }

  // ---- Keys of other sources ----------------------------------------------

  ghost predicate Names(lib: NetLib, acts: seq<Action>, k: string) {
    exists i :: 0 <= i < |acts| && !acts[i].Prune? && Canonical(lib, acts[i].d) == Some(k)
  }

  lemma {:induction false} NamesGrow(lib: NetLib, acts: seq<Action>, acts': seq<Action>, k: string)
    requires acts <= acts'
    ensures Names(lib, acts, k) ==> Names(lib, acts', k)
  {
    if Names(lib, acts, k) {
      var i :| 0 <= i < |acts| && !acts[i].Prune? && Canonical(lib, acts[i].d) == Some(k);
      assert acts'[i] == acts[i];
    }
  }

  lemma {:induction false} QueueNames(lib: NetLib, st: Store, d: Decision, k: string)
    requires k in CsQueue(lib, st, d)
    ensures Canonical(lib, d) == Some(k)
  {
  }

  /** An entry of another source that no action names and no pending deletion awaits is never touched. */
  lemma {:induction false} OthersKept(
    lib: NetLib, st: Store, pending: multiset<string>, steps: seq<Step>, s: State, k: string)
    requires Lawful(lib) && Shaped(st) && Run(lib, Start(st, pending), steps) == Some(s)
    requires !HeldByCs(st, k) && k !in pending && !Names(lib, Work(s), k)
    ensures SameKey(st, s.st, k) && k !in s.pending
  {
    if steps != [] {
      var init, step := steps[..|steps| - 1], steps[|steps| - 1];
      var t := Run(lib, Start(st, pending), init).value;
      WorkGrows(t, step, lib);
      NamesGrow(lib, Work(t), Work(s), k);
      OthersKept(lib, st, pending, init, t, k);
      InvRun(lib, st, pending, init, t);
      OtherKeptStep(lib, t, step, k);
    }
  }

  lemma {:induction false} WorkGrows(t: State, step: Step, lib: NetLib)
    requires Enabled(t, step)
    ensures Work(t) <= Work(Do(lib, t, step))
  {
  }

  lemma {:induction false} OtherKeptStep(lib: NetLib, t: State, step: Step, k: string)
    requires Lawful(lib) && Shaped(t.st) && Enabled(t, step)
    requires !HeldByCs(t.st, k) && k !in t.pending && !Names(lib, Work(Do(lib, t, step)), k)
    ensures SameKey(t.st, Do(lib, t, step).st, k) && k !in Do(lib, t, step).pending
  {
    var w := Work(Do(lib, t, step));
    match step
    case Look(d) =>
      assert w[|w| - 1] == Ban(d);
      if k in CsQueue(lib, t.st, d) {
        QueueNames(lib, t.st, d, k);
      }
    case Write =>
      assert w[|w| - 1] == Ban(t.looked.value.d);
      ApplyAt(lib, t.st, t.looked.value.d, t.looked.value.firstSeen, k);
    case Lift(d) =>
      assert w[|w| - 1] == Unban(d);
      RemoveAt(lib, t.st, d, k);
    case DropUnlisted(values) => DropStaleAt(lib, t.st, values, k);
    case Finish(ip) =>
  }

  // ---- Exactness ----------------------------------------------------------

  /** A schedule that has done these actions and run every deletion they started. */
  ghost predicate Completes(lib: NetLib, st: Store, acts: seq<Action>, steps: seq<Step>) {
    var s := Run(lib, Start(st, multiset{}), steps);
    s.Some? && s.value.done == acts && s.value.looked.None? && s.value.pending == multiset{}
  }

  ghost predicate EndsWith(lib: NetLib, st: Store, acts: seq<Action>, keys: set<string>, steps: seq<Step>) {
    Completes(lib, st, acts, steps) ==>
      var s := Run(lib, Start(st, multiset{}), steps).value;
      Distinct(s.st.cidrs) && CsKeys(s.st) == keys
  }

  ghost predicate EndsExact(lib: NetLib, st: Store, acts: seq<Action>, steps: seq<Step>)
    requires Distinct(st.cidrs)
  {
    EndsWith(lib, st, acts, KeysAfter(lib, CsKeys(st), acts), steps)
  }

  /** The schedule on which every deletion comes after all actions. */
  lemma {:induction false} LateDeletions(lib: NetLib, st: Store, acts: seq<Action>) returns (steps: seq<Step>)
    ensures Run(lib, Start(st, multiset{}), steps)
            == Some(State(ActAll(lib, st, acts), multiset(QueuedAll(lib, st, acts)), acts, None))
  {
    if acts == [] {
      steps := [];
      assert multiset(QueuedAll(lib, st, [])) == multiset{};
    } else {
      var init, a := acts[..|acts| - 1], acts[|acts| - 1];
      assert acts == init + [a];
      steps := LateDeletions(lib, st, init);
      var full, queued := ActAll(lib, st, init), QueuedAll(lib, st, init);
      var s := State(full, multiset(queued), init, None);
      match a
      case Ban(d) =>
        var s1 := Do(lib, s, Look(d));
        RunSnoc(lib, Start(st, multiset{}), steps, s, Look(d));
        RunSnoc(lib, Start(st, multiset{}), steps + [Look(d)], s1, Write);
        steps := steps + [Look(d)] + [Write];
        assert multiset(queued + CsQueue(lib, full, d)) == multiset(queued) + multiset(CsQueue(lib, full, d));
      case Unban(d) =>
        RunSnoc(lib, Start(st, multiset{}), steps, s, Lift(d));
        steps := steps + [Lift(d)];
        assert queued + [] == queued;
      case Prune(values) =>
        RunSnoc(lib, Start(st, multiset{}), steps, s, DropUnlisted(values));
        steps := steps + [DropUnlisted(values)];
        assert queued + [] == queued;
    }
  }

  /** Running all pending deletions takes away each parseable key among them. */
  lemma {:induction false} FinishAll(lib: NetLib, start: State, steps: seq<Step>, s: State, k: string)
    returns (steps': seq<Step>, s': State)
    requires Run(lib, start, steps) == Some(s) && s.looked.None? && !s.st.multi
    requires k !in s.st.ips || (k in s.pending && ParseIP(lib, k).Some?)
    ensures Run(lib, start, steps') == Some(s') && s'.done == s.done && s'.looked.None? && s'.pending == multiset{}
    ensures k !in s'.st.ips
    decreases |s.pending|
  {
    if s.pending == multiset{} {
      steps', s' := steps, s;
    } else {
      var ip :| ip in s.pending;
      RunSnoc(lib, start, steps, s, Finish(ip));
      var t := Do(lib, s, Finish(ip));
      steps', s' := FinishAll(lib, start, steps + [Finish(ip)], t, k);
    }
  }

  lemma {:induction false} QueuedParse(lib: NetLib, st: Store, acts: seq<Action>, k: string)
    requires Lawful(lib)
    ensures k in QueuedAll(lib, st, acts) ==> '/' !in k && ParseIP(lib, k).Some?
  {
    if acts != [] {
      var init, a := acts[..|acts| - 1], acts[|acts| - 1];
      QueuedParse(lib, st, init, k);
      if k in Started(lib, ActAll(lib, st, init), a) {
        CanonicalIP(lib, a.d.value);
      }
    }
  }

  ghost predicate QueuedUnnamed(lib: NetLib, st: Store, acts: seq<Action>)
    requires Distinct(st.cidrs)
  {
    forall k | k in QueuedAll(lib, st, acts) :: k !in KeysAfter(lib, CsKeys(st), acts)
  }

  lemma {:induction false} ExactIffQueued(lib: NetLib, st: Store, acts: seq<Action>)
    requires Lawful(lib) && Shaped(st)
    ensures (forall steps :: EndsExact(lib, st, acts, steps)) <==> QueuedUnnamed(lib, st, acts)
  {
    if QueuedUnnamed(lib, st, acts) {
      forall steps ensures EndsExact(lib, st, acts, steps) {
        ExactSchedule(lib, st, acts, steps);
      }
    } else {
      LossPossible(lib, st, acts);
    }
  }

  lemma {:induction false} LossPossible(lib: NetLib, st: Store, acts: seq<Action>)
    requires Lawful(lib) && Shaped(st)
    ensures !QueuedUnnamed(lib, st, acts) ==> exists steps :: !EndsExact(lib, st, acts, steps)
  {
    if !QueuedUnnamed(lib, st, acts) {
      var k :| k in QueuedAll(lib, st, acts) && k in KeysAfter(lib, CsKeys(st), acts);
      var steps := LosingSchedule(lib, st, acts, k);
      assert !EndsExact(lib, st, acts, steps);
    }
  }

  lemma {:induction false} ExactSchedule(lib: NetLib, st: Store, acts: seq<Action>, steps: seq<Step>)
    requires Lawful(lib) && Shaped(st) && QueuedUnnamed(lib, st, acts)
    ensures EndsExact(lib, st, acts, steps)
  {
    if Completes(lib, st, acts, steps) {
      var s := Run(lib, Start(st, multiset{}), steps).value;
      assert Work(s) == acts;
      ScheduleKeys(lib, st, multiset{}, steps, s);
      assert KeysAfter(lib, CsKeys(st), acts) - AtRisk(lib, st, multiset{}, acts) == KeysAfter(lib, CsKeys(st), acts);
    }
  }

  /** Both bounds are met: the schedule with all deletions last loses a key whose deletion was started. */
  lemma {:induction false} LosingSchedule(lib: NetLib, st: Store, acts: seq<Action>, k: string) returns (steps: seq<Step>)
    requires Lawful(lib) && Shaped(st)
    ensures Completes(lib, st, acts, steps)
    ensures k in QueuedAll(lib, st, acts) && k in KeysAfter(lib, CsKeys(st), acts) ==> !EndsExact(lib, st, acts, steps)
  {
    var late := LateDeletions(lib, st, acts);
    ActKeys(lib, st, acts);
    QueuedParse(lib, st, acts, k);
    var s := Run(lib, Start(st, multiset{}), late).value;
    var lost := if k in s.pending then k else "/";
    assert lost !in s.st.ips || (lost in s.pending && ParseIP(lib, lost).Some?);
    var s';
    steps, s' := FinishAll(lib, Start(st, multiset{}), late, s, lost);
    ScheduleKeys(lib, st, multiset{}, steps, s');
    InCsKeys(s'.st, k);
  }

  // ---- The condition on the table and the actions -------------------------

  /** The expiration under an address key after these actions: the last ban's, or the table's, unless lifted or pruned. */
  ghost function Lasting(lib: NetLib, st: Store, acts: seq<Action>, k: string): Option<int>
    requires Distinct(st.cidrs)
  {
    if acts == [] then (if k in st.ips then Some(st.ips[k].expiration) else None)
    else
      var init := acts[..|acts| - 1];
      var before := Lasting(lib, st, init, k);
      match acts[|acts| - 1]
      case Prune(values) => if k !in values && k in KeysAfter(lib, CsKeys(st), init) then None else before
      case Ban(d) => if Canonical(lib, d) == Some(k) then Some(d.expiration) else before
      case Unban(d) => if Canonical(lib, d) == Some(k) then None else before
  }

  /** Action `i` bans an address whose entry has expired by then. */
  ghost predicate Relists(lib: NetLib, st: Store, acts: seq<Action>, i: nat, k: string)
    requires Distinct(st.cidrs)
  {
    && i < |acts| && acts[i].Ban? && '/' !in acts[i].d.value && Canonical(lib, acts[i].d) == Some(k)
    && var e := Lasting(lib, st, acts[..i], k);
       e.Some? && Expired(e.value, acts[i].d.now)
  }

  function Held(st: Store, k: string): Option<int> {
    if k in st.ips then Some(st.ips[k].expiration) else None
  }

  lemma {:induction false} LastingStep(lib: NetLib, st: Store, a: Action, k: string)
    requires Lawful(lib) && Shaped(st) && '/' !in k
    ensures Held(CsAct(lib, st, a), k) ==
            match a
            case Prune(values) => if k !in values && k in CsKeys(st) then None else Held(st, k)
            case Ban(d) => if Canonical(lib, d) == Some(k) then Some(d.expiration) else Held(st, k)
            case Unban(d) => if Canonical(lib, d) == Some(k) then None else Held(st, k)
  {
    match a
    case Prune(values) =>
      InCsKeys(st, k);
      DropStaleAt(lib, st, values, k);
    case Ban(d) =>
      ApplyAt(lib, st, d, LookFirst(lib, st, d), k);
      if Canonical(lib, d) == Some(k) {
        CanonicalShape(lib, d);
      }
    case Unban(d) => RemoveAt(lib, st, d, k);
  }

  lemma {:induction false} LastingIs(lib: NetLib, st: Store, acts: seq<Action>, k: string)
    requires Lawful(lib) && Shaped(st) && '/' !in k
    ensures Lasting(lib, st, acts, k) == Held(ActAll(lib, st, acts), k)
  {
    if acts != [] {
      var init, a := acts[..|acts| - 1], acts[|acts| - 1];
      LastingIs(lib, st, init, k);
      ActKeys(lib, st, init);
      LastingStep(lib, ActAll(lib, st, init), a, k);
    }
  }

  lemma {:induction false} QueueIff(lib: NetLib, st: Store, d: Decision, k: string)
    ensures k in CsQueue(lib, st, d) <==>
            '/' !in d.value && Canonical(lib, d) == Some(k)
            && Held(st, k).Some? && Expired(Held(st, k).value, d.now)
  {
  }

  lemma {:induction false} LastRelists(lib: NetLib, st: Store, acts: seq<Action>, k: string)
    requires Lawful(lib) && Shaped(st) && acts != []
    ensures var init, a := acts[..|acts| - 1], acts[|acts| - 1];
            Relists(lib, st, acts, |init|, k) <==> a.Ban? && k in CsQueue(lib, ActAll(lib, st, init), a.d)
  {
    var init, a := acts[..|acts| - 1], acts[|acts| - 1];
    if a.Ban? && '/' !in a.d.value && Canonical(lib, a.d) == Some(k) {
      CanonicalShape(lib, a.d);
      LastingIs(lib, st, init, k);
    }
    if a.Ban? {
      QueueIff(lib, ActAll(lib, st, init), a.d, k);
    }
  }

  lemma {:induction false} RelistsPrefix(lib: NetLib, st: Store, acts: seq<Action>, n: nat, i: nat, k: string)
    requires Distinct(st.cidrs) && i < n <= |acts|
    ensures Relists(lib, st, acts, i, k) <==> Relists(lib, st, acts[..n], i, k)
  {
    assert acts[..n][..i] == acts[..i];
  }

  ghost predicate RelistedBy(lib: NetLib, st: Store, acts: seq<Action>, k: string)
    requires Distinct(st.cidrs)
  {
    exists i: nat :: Relists(lib, st, acts, i, k)
  }

  lemma {:induction false} RelistedSnoc(lib: NetLib, st: Store, acts: seq<Action>, k: string)
    requires Distinct(st.cidrs) && acts != []
    ensures RelistedBy(lib, st, acts, k) <==>
            RelistedBy(lib, st, acts[..|acts| - 1], k) || Relists(lib, st, acts, |acts| - 1, k)
  {
    var n := |acts| - 1;
    var init := acts[..n];
    forall i: nat | i < n ensures Relists(lib, st, init, i, k) <==> Relists(lib, st, acts, i, k) {
      RelistsPrefix(lib, st, acts, n, i, k);
    }
    if RelistedBy(lib, st, init, k) {
      var i: nat :| Relists(lib, st, init, i, k);
      assert Relists(lib, st, acts, i, k);
    }
  }

  /** A deletion of a key is started exactly by the actions that ban it once it has expired. */
  lemma {:induction false} QueuedIffRelists(lib: NetLib, st: Store, acts: seq<Action>, k: string)
    requires Lawful(lib) && Shaped(st)
    ensures k in QueuedAll(lib, st, acts) <==> RelistedBy(lib, st, acts, k)
  {
    if acts != [] {
      QueuedIffRelists(lib, st, acts[..|acts| - 1], k);
      LastRelists(lib, st, acts, k);
      RelistedSnoc(lib, st, acts, k);
    }
  }

  /** Every completed schedule ends with exactly the named keys iff no key still named was banned once expired. */
  lemma {:induction false} ExactIff(lib: NetLib, st: Store, acts: seq<Action>)
    requires Lawful(lib) && Shaped(st)
    ensures (forall steps :: EndsExact(lib, st, acts, steps))
            <==> forall i: nat, k | Relists(lib, st, acts, i, k) :: k !in KeysAfter(lib, CsKeys(st), acts)
  {
    ExactIffQueued(lib, st, acts);
    forall k ensures k in QueuedAll(lib, st, acts) <==> RelistedBy(lib, st, acts, k) {
      QueuedIffRelists(lib, st, acts, k);
    }
  }

  /** For polls: iff no key that CrowdSec still lists at the end was banned once expired. */
  lemma {:induction false} PollsExactIff(lib: NetLib, st: Store, ps: seq<Delta>)
    requires Lawful(lib) && Shaped(st)
    ensures (forall steps :: EndsWith(lib, st, PollsActs(ps), Listed(lib, CsKeys(st), ps), steps))
            <==> forall i: nat, k | Relists(lib, st, PollsActs(ps), i, k) :: k !in Listed(lib, CsKeys(st), ps)
  {
    PollsKeys(lib, CsKeys(st), ps);
    ExactIff(lib, st, PollsActs(ps));
    assert forall steps :: EndsExact(lib, st, PollsActs(ps), steps)
                           <==> EndsWith(lib, st, PollsActs(ps), Listed(lib, CsKeys(st), ps), steps);
  }

  // ---- The reconcile's condition on the table and the stream --------------

  /** The expiration under an address key when decision `i` is looked up: the last earlier duplicate's, or the table's. */
  function LastExpiration(lib: NetLib, ips: map<string, BlockEntry>, ds: seq<Decision>, k: string): Option<int> {
    if ds == [] then (if k in ips then Some(ips[k].expiration) else None)
    else if Canonical(lib, ds[|ds| - 1]) == Some(k) then Some(ds[|ds| - 1].expiration)
    else LastExpiration(lib, ips, ds[..|ds| - 1], k)
  }

  /** Decision `i` names an address whose entry has expired by then. */
  ghost predicate Reblocks(lib: NetLib, ips: map<string, BlockEntry>, ds: seq<Decision>, i: nat) {
    && i < |ds| && '/' !in ds[i].value && Canonical(lib, ds[i]).Some?
    && var e := LastExpiration(lib, ips, ds[..i], Canonical(lib, ds[i]).value);
       e.Some? && Expired(e.value, ds[i].now)
  }

  ghost predicate NoReblock(lib: NetLib, ips: map<string, BlockEntry>, ds: seq<Decision>) {
    forall i: nat :: !Reblocks(lib, ips, ds, i)
  }

  lemma {:induction false} BansAt(ds: seq<Decision>, i: nat)
    requires i <= |ds|
    ensures |Bans(ds)| == |ds| && Bans(ds)[..i] == Bans(ds[..i])
    ensures i < |ds| ==> Bans(ds)[i] == Ban(ds[i])
  {
    if i == |ds| {
      assert ds[..i] == ds;
      if ds != [] {
        BansAt(ds[..|ds| - 1], 0);
      }
    } else {
      BansAt(ds[..|ds| - 1], i);
      assert ds[..|ds| - 1][..i] == ds[..i];
    }
  }

  lemma {:induction false} CanonIn(lib: NetLib, ds: seq<Decision>, i: nat)
    requires i < |ds| && Canonical(lib, ds[i]).Some?
    ensures Canonical(lib, ds[i]).value in CanonSet(lib, ds)
  {
    if i < |ds| - 1 {
      CanonIn(lib, ds[..|ds| - 1], i);
    }
  }

  lemma {:induction false} LastingSnoc(lib: NetLib, st: Store, acts: seq<Action>, d: Decision, k: string)
    requires Distinct(st.cidrs)
    ensures Lasting(lib, st, acts + [Ban(d)], k)
            == if Canonical(lib, d) == Some(k) then Some(d.expiration) else Lasting(lib, st, acts, k)
  {
    assert (acts + [Ban(d)])[..|acts|] == acts;
  }

  /** After the stale keys went, a listed key has the expiration of its last decision, or the table's. */
  lemma {:induction false} LastingListed(lib: NetLib, st: Store, values: set<string>, ds: seq<Decision>, k: string)
    requires Distinct(st.cidrs) && k in values
    ensures Lasting(lib, st, [Prune(values)] + Bans(ds), k) == LastExpiration(lib, st.ips, ds, k)
  {
    if ds == [] {
      assert [Prune(values)] + Bans(ds) == [Prune(values)];
      assert [Prune(values)][..0] == [];
    } else {
      var init, d := ds[..|ds| - 1], ds[|ds| - 1];
      LastingListed(lib, st, values, init, k);
      LastingSnoc(lib, st, [Prune(values)] + Bans(init), d, k);
      assert [Prune(values)] + Bans(ds) == ([Prune(values)] + Bans(init)) + [Ban(d)];
    }
  }

  /** What a reconcile relists is what its stream reblocks. */
  lemma {:induction false} RelistsReblocks(lib: NetLib, st: Store, ds: seq<Decision>, i: nat, k: string)
    requires Distinct(st.cidrs)
    ensures !Relists(lib, st, ReconcileActs(lib, ds), 0, k)
    ensures Relists(lib, st, ReconcileActs(lib, ds), i + 1, k)
            <==> Reblocks(lib, st.ips, ds, i) && Canonical(lib, ds[i]) == Some(k)
  {
    var values, acts := CanonSet(lib, ds), ReconcileActs(lib, ds);
    BansAt(ds, 0);
    if i < |ds| {
      BansAt(ds, i);
      assert acts[i + 1] == Ban(ds[i]);
      assert acts[..i + 1] == [Prune(values)] + Bans(ds[..i]);
      if Canonical(lib, ds[i]) == Some(k) {
        CanonIn(lib, ds, i);
        LastingListed(lib, st, values, ds[..i], k);
      }
    }
  }

  lemma {:induction false} ReconcileRelists(lib: NetLib, st: Store, ds: seq<Decision>)
    requires Distinct(st.cidrs)
    ensures (forall i: nat, k | Relists(lib, st, ReconcileActs(lib, ds), i, k) :: k !in CanonSet(lib, ds))
            <==> NoReblock(lib, st.ips, ds)
  {
    if NoReblock(lib, st.ips, ds) {
      forall i: nat, k ensures !Relists(lib, st, ReconcileActs(lib, ds), i, k) {
        RelistsReblocks(lib, st, ds, if i > 0 then i - 1 else 0, k);
      }
    } else {
      var i: nat :| Reblocks(lib, st.ips, ds, i);
      var k := Canonical(lib, ds[i]).value;
      RelistsReblocks(lib, st, ds, i, k);
      CanonIn(lib, ds, i);
    }
  }

  /** The startup reconcile ends with exactly the listed keys, on every schedule, iff it blocks no expired address again. */
  lemma {:induction false} ReconcileExactIff(lib: NetLib, st: Store, ds: seq<Decision>)
    requires Lawful(lib) && Shaped(st)
    ensures KeysAfter(lib, CsKeys(st), ReconcileActs(lib, ds)) == CanonSet(lib, ds)
    ensures (forall steps :: EndsExact(lib, st, ReconcileActs(lib, ds), steps)) <==> NoReblock(lib, st.ips, ds)
  {
    ReconcileKeys(lib, CsKeys(st), ds);
    ExactIff(lib, st, ReconcileActs(lib, ds));
    ReconcileRelists(lib, st, ds);
  }

  // ---- A snapshot after polls ---------------------------------------------

  /** The schedule on which every deletion runs as soon as it is started ends with exactly the named keys. */
  lemma {:induction false} EagerDeletions(lib: NetLib, st: Store, acts: seq<Action>) returns (steps: seq<Step>, s: State)
    requires Lawful(lib) && Shaped(st)
    ensures Run(lib, Start(st, multiset{}), steps) == Some(s)
    ensures s.done == acts && s.looked.None? && s.pending == multiset{}
    ensures Shaped(s.st) && CsKeys(s.st) == KeysAfter(lib, CsKeys(st), acts)
  {
    if acts == [] {
      steps, s := [], Start(st, multiset{});
    } else {
      var init, a := acts[..|acts| - 1], acts[|acts| - 1];
      assert acts == init + [a];
      var t;
      steps, t := EagerDeletions(lib, st, init);
      match a
      case Ban(d) => steps, s := EagerBan(lib, Start(st, multiset{}), steps, t, d);
      case Unban(d) =>
        RunSnoc(lib, Start(st, multiset{}), steps, t, Lift(d));
        steps, s := steps + [Lift(d)], Do(lib, t, Lift(d));
        ActOneKeys(lib, t.st, a);
      case Prune(values) =>
        RunSnoc(lib, Start(st, multiset{}), steps, t, DropUnlisted(values));
        steps, s := steps + [DropUnlisted(values)], Do(lib, t, DropUnlisted(values));
        ActOneKeys(lib, t.st, a);
    }
  }

  lemma {:induction false} ActOneKeys(lib: NetLib, st: Store, a: Action)
    requires Lawful(lib) && Shaped(st)
    ensures Shaped(CsAct(lib, st, a))
    ensures CsKeys(CsAct(lib, st, a)) ==
            match a
            case Prune(values) => CsKeys(st) * values
            case Ban(d) => CsKeys(st) + Named(lib, d)
            case Unban(d) => CsKeys(st) - Named(lib, d)
  {
    ActKeys(lib, st, [a]);
    ActSnoc(lib, st, [], a);
    KeysSnoc(lib, CsKeys(st), [], a);
    assert [] + [a] == [a];
  }

  lemma {:induction false} EagerBan(lib: NetLib, start: State, steps: seq<Step>, t: State, d: Decision)
    returns (steps': seq<Step>, s: State)
    requires Lawful(lib) && Run(lib, start, steps) == Some(t)
    requires t.looked.None? && t.pending == multiset{} && Shaped(t.st)
    ensures Run(lib, start, steps') == Some(s)
    ensures s.done == t.done + [Ban(d)] && s.looked.None? && s.pending == multiset{}
    ensures Shaped(s.st) && CsKeys(s.st) == CsKeys(t.st) + Named(lib, d)
  {
    var u;
    steps', u := EagerLook(lib, start, steps, t, d);
    RunSnoc(lib, start, steps', u, Write);
    s, steps' := Do(lib, u, Write), steps' + [Write];
    WriteKeys(lib, u.st, d, u.looked.value.firstSeen);
  }

  lemma {:induction false} EagerLook(lib: NetLib, start: State, steps: seq<Step>, t: State, d: Decision)
    returns (steps': seq<Step>, u: State)
    requires Run(lib, start, steps) == Some(t) && t.looked.None? && t.pending == multiset{} && Shaped(t.st)
    ensures Run(lib, start, steps') == Some(u)
    ensures u.done == t.done && u.looked.Some? && u.looked.value.d == d && u.pending == multiset{}
    ensures Shaped(u.st) && CsKeys(t.st) - Named(lib, d) <= CsKeys(u.st) <= CsKeys(t.st)
  {
    var q := CsQueue(lib, t.st, d);
    RunSnoc(lib, start, steps, t, Look(d));
    steps', u := steps + [Look(d)], Do(lib, t, Look(d));
    if q != [] {
      var k := q[0];
      assert q == [k];
      QueueNames(lib, t.st, d, k);
      RunSnoc(lib, start, steps', u, Finish(k));
      steps', u := steps' + [Finish(k)], Do(lib, u, Finish(k));
      DropKeys(lib, t.st, k);
    }
  }

  lemma {:induction false} DropKeys(lib: NetLib, st: Store, k: string)
    requires Shaped(st)
    ensures Shaped(DropIp(lib, st, k))
    ensures CsKeys(st) - {k} <= CsKeys(DropIp(lib, st, k)) <= CsKeys(st)
  {
  }

  lemma {:induction false} WriteKeys(lib: NetLib, st: Store, d: Decision, firstSeen: int)
    requires Lawful(lib) && Shaped(st)
    ensures Shaped(CsWrite(lib, st, d, firstSeen))
    ensures CsKeys(CsWrite(lib, st, d, firstSeen)) == CsKeys(st) + Named(lib, d)
  {
    var st' := CsWrite(lib, st, d, firstSeen);
    ApplyAt(lib, st, d, firstSeen, "");
    forall k ensures k in CsKeys(st') <==> k in CsKeys(st) || k in Named(lib, d) {
      ApplyAt(lib, st, d, firstSeen, k);
      InCsKeys(st, k);
      InCsKeys(st', k);
    }
  }

  /** A reconcile leaves the key set as it is, on every schedule, iff it is the listed one and no expired address is relisted. */
  lemma {:induction false} ReconcileKeepsIff(lib: NetLib, st: Store, ds: seq<Decision>)
    requires Lawful(lib) && Shaped(st)
    ensures (forall steps :: EndsWith(lib, st, ReconcileActs(lib, ds), CsKeys(st), steps))
            <==> CsKeys(st) == CanonSet(lib, ds) && NoReblock(lib, st.ips, ds)
  {
    var acts := ReconcileActs(lib, ds);
    ReconcileExactIff(lib, st, ds);
    var eager, s := EagerDeletions(lib, st, acts);
    assert Completes(lib, st, acts, eager);
    if CsKeys(st) == CanonSet(lib, ds) {
      assert forall steps :: EndsExact(lib, st, acts, steps) <==> EndsWith(lib, st, acts, CsKeys(st), steps);
    } else {
      assert !EndsWith(lib, st, acts, CsKeys(st), eager);
    }
  }

  /** After polls a snapshot equal to the account finds nothing stale, and keeps the keys iff no deletion took or takes one. */
  lemma {:induction false} SnapshotAfterPolls(
    lib: NetLib, st: Store, pending: multiset<string>, ps: seq<Delta>, steps: seq<Step>, s: State, snapshot: seq<Decision>)
    requires Lawful(lib) && Shaped(st) && Run(lib, Start(st, pending), steps) == Some(s)
    requires s.done == PollsActs(ps) && s.looked.None?
    requires CanonSet(lib, snapshot) == Listed(lib, CsKeys(st), ps)
    ensures var values := CanonSet(lib, snapshot);
            Distinct(s.st.cidrs) && StaleIps(s.st, values) == {} && StaleCidrs(s.st.cidrs, values) == []
    ensures (forall more :: EndsWith(lib, s.st, ReconcileActs(lib, snapshot), CsKeys(s.st), more))
            <==> CsKeys(s.st) == Listed(lib, CsKeys(st), ps) && NoReblock(lib, s.st.ips, snapshot)
  {
    var values := CanonSet(lib, snapshot);
    PollsSchedule(lib, st, pending, ps, steps, s);
    forall k | k in StaleIps(s.st, values) ensures false {
      InCsKeys(s.st, k);
    }
    var stale := StaleCidrs(s.st.cidrs, values);
    if stale != [] {
      StaleCidrsAre(s.st.cidrs, values, stale[0]);
      InCsKeys(s.st, stale[0]);
    }
    ReconcileKeepsIff(lib, s.st, snapshot);
  }

  /** An address listed again after its entry expired is missing once the deletion that its lookup started has run. */
  lemma {:induction false} RelistedCanBeLost(lib: NetLib, st: Store, n: U32, d: Decision)
    requires Lawful(lib) && Shaped(st) && d.value == Dotted(n)
    requires Dotted(n) in st.ips && Expired(st.ips[Dotted(n)].expiration, d.now)
    ensures Canonical(lib, d) == Some(Dotted(n)) && Reblocks(lib, st.ips, [d], 0)
    ensures var st' := ActAll(lib, st, ReconcileActs(lib, [d]));
            Dotted(n) in st'.ips && Dotted(n) !in DropIp(lib, st', Dotted(n)).ips
  {
    ParseIPDotted(lib, n);
    DottedChars(n);
    var k := Dotted(n);
    ActKeys(lib, st, ReconcileActs(lib, [d]));
    ReconcileKeys(lib, CsKeys(st), [d]);
    assert [d][..0] == [] && k in CanonSet(lib, [d]);
    InCsKeys(ActAll(lib, st, ReconcileActs(lib, [d])), k);
  }
}
