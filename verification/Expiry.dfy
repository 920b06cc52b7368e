/** Lazy and periodic deletion of expired addresses, running beside readers and writers. */
module Expiry {
  import opened Text
  import opened Records
  import opened Store

  /** A PUT between its lookup of the old entry and its write of the new one. */
  datatype PutJob = PutJob(ip: string, entry: BlockEntry)

  /** The table with the deletions that lookups and the sweep have queued and not yet run. */
  datatype State = State(
    clock: int, table: map<string, BlockEntry>, pending: multiset<string>, jobs: map<nat, PutJob>)

  datatype Step =
    | Tick(t: int)
    | Lookup(ip: string)
    | PutBegin(id: nat, ip: string, draft: BlockEntry, now: int)
    | PutCommit(id: nat)
    | Delete(ip: string)
    | Collect(now: int)
    | Finish(ip: string, removes: bool)

  datatype Obs = Nothing | Answer(r: Option<BlockEntry>) | Seen(firstSeen: int)

  predicate Enabled(s: State, step: Step) {
    match step
    case Tick(t) => t >= s.clock
    case PutBegin(id, _, _, _) => id !in s.jobs
    case PutCommit(id) => id in s.jobs
    case Collect(now) => now <= s.clock
    case Finish(ip, _) => ip in s.pending
    case _ => true
  }

  function Job(table: map<string, BlockEntry>, clock: int, ip: string, draft: BlockEntry, now: int): PutJob {
    PutJob(ip, draft.(firstSeen := FirstSeen(LookupIp(table, ip, clock), now)))
  }

  /** A lookup that finds an expired entry queues its deletion. */
  function Queued(s: State, ip: string): multiset<string> {
    if ip in s.table && Expired(s.table[ip].expiration, s.clock) then s.pending + multiset{ip} else s.pending
  }

  /** The code: deletions are queued, and run later without another look at the entry. */
  function Do(s: State, step: Step): State
    requires Enabled(s, step)
  {
    match step
    case Tick(t) => s.(clock := t)
    case Lookup(ip) => s.(pending := Queued(s, ip))
    case PutBegin(id, ip, draft, now) =>
      s.(pending := Queued(s, ip), jobs := s.jobs[id := Job(s.table, s.clock, ip, draft, now)])
    case PutCommit(id) => s.(table := s.table[s.jobs[id].ip := s.jobs[id].entry], jobs := s.jobs - {id})
    case Delete(ip) => s.(table := s.table - {ip})
    case Collect(now) => s.(pending := s.pending + multiset(ExpiredIps(s.table, now)))
    case Finish(ip, removes) =>
      s.(pending := s.pending - multiset{ip}, table := if removes then s.table - {ip} else s.table)
  }

  /** A step queues deletions of exactly the expired entries that it comes across. */
  lemma {:induction false} QueuesExpired(s: State, step: Step, k: string)
    requires Enabled(s, step) && !step.Finish?
    ensures var more := Do(s, step).pending[k] - s.pending[k];
            more == if match step
                       case Lookup(ip) => ip == k && k in s.table && 0 < s.table[k].expiration <= s.clock
                       case PutBegin(_, ip, _, _) => ip == k && k in s.table && 0 < s.table[k].expiration <= s.clock
                       case Collect(now) => k in s.table && 0 < s.table[k].expiration <= now
                       case _ => false
                    then 1 else 0
  {
  }

  /** The reference: expired entries are filtered out on reading and never deleted. */
  function DoRef(s: State, step: Step): State
  {
    match step
    case Tick(t) => s.(clock := t)
    case PutBegin(id, ip, draft, now) =>
      s.(jobs := s.jobs[id := Job(s.table, s.clock, ip, draft, now)])
    case PutCommit(id) =>
      if id in s.jobs then s.(table := s.table[s.jobs[id].ip := s.jobs[id].entry], jobs := s.jobs - {id}) else s
    case Delete(ip) => s.(table := s.table - {ip})
    case _ => s
  }

  /** What the outside sees of a step: the entry unless it has expired, and the first-seen time that a PUT carries on. */
  function Observe(s: State, step: Step): (o: Obs)
    ensures step.Lookup? ==>
              o == Answer(if step.ip in s.table
                             && (s.table[step.ip].expiration <= 0 || s.clock < s.table[step.ip].expiration)
                          then Some(s.table[step.ip]) else None)
    ensures step.PutBegin? ==>
              o == Seen(if step.ip in s.table
                           && (s.table[step.ip].expiration <= 0 || s.clock < s.table[step.ip].expiration)
                        then s.table[step.ip].firstSeen else step.now)
  {
    match step
    case Lookup(ip) => Answer(LookupIp(s.table, ip, s.clock))
    case PutBegin(_, ip, _, now) => Seen(FirstSeen(LookupIp(s.table, ip, s.clock), now))
    case _ => Nothing
  }

  /** A write is safe unless its key awaits deletion and the new entry is live. */
  predicate SafeStep(s: State, step: Step) {
    match step
    case PutCommit(id) =>
      id in s.jobs ==>
        s.jobs[id].ip !in s.pending || Expired(s.jobs[id].entry.expiration, s.clock)
    case _ => true
  }

  predicate SafeRun(s: State, steps: seq<Step>)
    decreases |steps|
  {
    steps == [] ||
    (Enabled(s, steps[0]) && SafeStep(s, steps[0]) && SafeRun(Do(s, steps[0]), steps[1..]))
  }

  function Trace(s: State, steps: seq<Step>): seq<Obs>
    requires SafeRun(s, steps)
    decreases |steps|
  {
    if steps == [] then [] else [Observe(s, steps[0])] + Trace(Do(s, steps[0]), steps[1..])
  }

  function TraceRef(s: State, steps: seq<Step>): seq<Obs>
    decreases |steps|
  {
    if steps == [] then [] else [Observe(s, steps[0])] + TraceRef(DoRef(s, steps[0]), steps[1..])
  }

  // ---- Simulation ---------------------------------------------------------

  ghost predicate RelatedAt(s: State, r: State, ip: string) {
    && (ip in s.table ==> ip in r.table && s.table[ip] == r.table[ip])
    && (ip in r.table && ip !in s.table ==> Expired(r.table[ip].expiration, r.clock))
    && (ip in s.pending && ip in r.table ==> Expired(r.table[ip].expiration, r.clock))
  }

  /** The code's table is the reference's with some expired entries missing, and only expired keys are queued. */
  ghost predicate Related(s: State, r: State) {
    s.clock == r.clock && s.jobs == r.jobs && forall ip :: RelatedAt(s, r, ip)
  }

  lemma {:induction false} RelatedObserve(s: State, r: State, step: Step)
    requires Related(s, r)
    ensures Observe(s, step) == Observe(r, step)
  {
    match step
    case Lookup(ip) => assert RelatedAt(s, r, ip);
    case PutBegin(_, ip, _, _) => assert RelatedAt(s, r, ip);
    case _ =>
  }

  lemma {:induction false} RelatedStep(s: State, r: State, step: Step)
    requires Related(s, r) && Enabled(s, step) && SafeStep(s, step)
    ensures Related(Do(s, step), DoRef(r, step))
  {
    var s', r' := Do(s, step), DoRef(r, step);
    if step.PutBegin? {
      assert RelatedAt(s, r, step.ip);
    }
    forall ip ensures RelatedAt(s', r', ip) {
      assert RelatedAt(s, r, ip);
    }
  }

  /** In every safe run, every lookup answer and every preserved first-seen time is the reference's. */
  lemma {:induction false} ExpiryInvisible(s: State, r: State, steps: seq<Step>)
    requires Related(s, r) && SafeRun(s, steps)
    ensures Trace(s, steps) == TraceRef(r, steps)
    decreases |steps|
  {
    if steps != [] {
      RelatedObserve(s, r, steps[0]);
      RelatedStep(s, r, steps[0]);
      ExpiryInvisible(Do(s, steps[0]), DoRef(r, steps[0]), steps[1..]);
    }
  }

  lemma {:induction false} StartRelated(clock: int, table: map<string, BlockEntry>)
    ensures var s := State(clock, table, multiset{}, map[]); Related(s, s)
  {
  }

  /** In particular in every safe run from any table with nothing queued, such as one just loaded. */
  lemma {:induction false} ExpiryInvisibleFrom(clock: int, table: map<string, BlockEntry>, steps: seq<Step>)
    requires SafeRun(State(clock, table, multiset{}, map[]), steps)
    ensures var s := State(clock, table, multiset{}, map[]); Trace(s, steps) == TraceRef(s, steps)
  {
    var s := State(clock, table, multiset{}, map[]);
    StartRelated(clock, table);
    ExpiryInvisible(s, s, steps);
  }

  // ---- Exactness ----------------------------------------------------------

  ghost predicate Indistinguishable(s: State, r: State, steps: seq<Step>) {
    SafeRun(s, steps) ==> Trace(s, steps) == TraceRef(r, steps)
  }

  /** A commit can be told from the reference by some later run exactly when it is not safe. */
  lemma {:induction false} CommitInvisibleIff(s: State, r: State, id: nat)
    requires Related(s, r) && id in s.jobs
    ensures (forall steps :: Indistinguishable(Do(s, PutCommit(id)), DoRef(r, PutCommit(id)), steps))
            <==> SafeStep(s, PutCommit(id))
  {
    var s', r' := Do(s, PutCommit(id)), DoRef(r, PutCommit(id));
    var ip := s.jobs[id].ip;
    if SafeStep(s, PutCommit(id)) {
      RelatedStep(s, r, PutCommit(id));
      forall steps ensures Indistinguishable(s', r', steps) {
        if SafeRun(s', steps) {
          ExpiryInvisible(s', r', steps);
        }
      }
    } else {
      var steps := [Finish(ip, true), Lookup(ip)];
      TwoSteps(s', Finish(ip, true), Lookup(ip));
      TwoStepsRef(r', Finish(ip, true), Lookup(ip));
      assert Trace(s', steps)[1] == Answer(None);
      assert TraceRef(r', steps)[1] == Answer(Some(s.jobs[id].entry));
      assert !Indistinguishable(s', r', steps);
    }
  }

  lemma {:induction false} TwoSteps(s: State, a: Step, b: Step)
    requires Enabled(s, a) && SafeStep(s, a) && Enabled(Do(s, a), b) && SafeStep(Do(s, a), b)
    ensures SafeRun(s, [a, b]) && Trace(s, [a, b]) == [Observe(s, a), Observe(Do(s, a), b)]
  {
    assert [a, b][1..] == [b] && [b][1..] == [];
    assert SafeRun(Do(Do(s, a), b), []);
    assert SafeRun(Do(s, a), [b]);
    assert Trace(Do(s, a), [b]) == [Observe(Do(s, a), b)];
  }

  lemma {:induction false} TwoStepsRef(s: State, a: Step, b: Step)
    ensures TraceRef(s, [a, b]) == [Observe(s, a), Observe(DoRef(s, a), b)]
  {
    assert [a, b][1..] == [b] && [b][1..] == [];
    assert TraceRef(DoRef(s, a), [b]) == [Observe(DoRef(s, a), b)];
  }

  /** Blocking an expired address again queues a deletion that can remove the new, live block. */
  lemma {:induction false} ReblockCanBeLost(s: State, id: nat, ip: string, draft: BlockEntry)
    requires id !in s.jobs && ip in s.table && Expired(s.table[ip].expiration, s.clock)
    requires !Expired(draft.expiration, s.clock)
    ensures var s1 := Do(s, PutBegin(id, ip, draft, s.clock));
            var s2 := Do(s1, PutCommit(id));
            && !SafeStep(s1, PutCommit(id))
            && LookupIp(s2.table, ip, s2.clock).Some?
            && Enabled(s2, Finish(ip, true)) && ip !in Do(s2, Finish(ip, true)).table
  {
  }
}
