/** Lazy and periodic deletion of expired networks, running beside readers and writers. */
module NetExpiry {
  import opened Keys
  import opened SliceMap
  import opened Records
  import opened CidrTable
  import opened Store

  /** The slice with the deletions that lookups and the sweep have queued and not yet run. */
  datatype State = State(clock: int, table: seq<CIDREntry>, pending: multiset<string>)

  datatype Step =
    | Tick(t: int)
    | Query(ip: IP)
    | BlockNet(e: CIDREntry)
    | UnblockNet(cidr: string)
    | Collect(now: int)
    | Finish(cidr: string)

  predicate Enabled(s: State, step: Step) {
    match step
    case Tick(t) => t >= s.clock
    case Collect(now) => now <= s.clock
    case Finish(cidr) => cidr in s.pending
    case _ => true
  }

  /** The code: a scan that stops queues a deletion, which runs later without another look at the entry. */
  function Do(lib: NetLib, s: State, step: Step): State
    requires Enabled(s, step)
  {
    match step
    case Tick(t) => s.(clock := t)
    case Query(ip) =>
      var r := Scan(lib, s.table, ip, s.clock);
      if r.Stale? then s.(pending := s.pending + multiset{r.key}) else s
    case BlockNet(e) => s.(table := Upserted(s.table, e))
    case UnblockNet(cidr) => s.(table := Removed(s.table, cidr))
    case Collect(now) => s.(pending := s.pending + multiset(ExpiredCidrs(s.table, now)))
    case Finish(cidr) => s.(table := Removed(s.table, cidr), pending := s.pending - multiset{cidr})
  }

  /** A step queues deletions of exactly the expired networks that it comes across. */
  lemma {:induction false} QueuesExpired(lib: NetLib, s: State, step: Step, k: string)
    requires Distinct(s.table) && Enabled(s, step) && !step.Finish?
    ensures k in Do(lib, s, step).pending <==>
            || k in s.pending
            || match step
               case Query(ip) => exists e :: FirstToCover(lib, s.table, ip, e) && e.key == k && 0 < e.val.expiration <= s.clock
               case Collect(now) => k in ToMap(s.table) && 0 < ToMap(s.table)[k].expiration <= now
               case _ => false
  {
    match step
    case Query(ip) => StopIff(lib, s.table, ip, s.clock, k);
    case Collect(now) => ExpiredCidrsAre(s.table, now, k);
    case _ =>
  }

  /** The scan stops at a network exactly if that is the first to cover the address and has expired. */
  lemma {:induction false} StopIff(lib: NetLib, t: seq<CIDREntry>, ip: IP, now: int, k: string)
    ensures Scan(lib, t, ip, now) == Stale(k) <==>
            exists e :: FirstToCover(lib, t, ip, e) && e.key == k && 0 < e.val.expiration <= now
  {
    if t != [] {
      if lib.contains(t[0].val.net, ip) {
        assert FirstToCover(lib, t, ip, t[0]);
        assert forall e | FirstToCover(lib, t, ip, e) :: e == t[0];
      } else {
        StopIff(lib, t[1..], ip, now, k);
        forall e ensures FirstToCover(lib, t, ip, e) <==> FirstToCover(lib, t[1..], ip, e) {
          FirstOfRest(lib, t, ip, e);
        }
      }
    }
  }

  lemma {:induction false} FirstOfRest(lib: NetLib, t: seq<CIDREntry>, ip: IP, e: CIDREntry)
    requires t != [] && !lib.contains(t[0].val.net, ip)
    ensures FirstToCover(lib, t, ip, e) <==> FirstToCover(lib, t[1..], ip, e)
  {
    var u := t[1..];
    if FirstToCover(lib, t, ip, e) {
      var i :| 0 <= i < |t| && t[i] == e && lib.contains(e.val.net, ip)
               && forall j | 0 <= j < i :: !lib.contains(t[j].val.net, ip);
      assert u[i - 1] == e && forall j | 0 <= j < i - 1 :: u[j] == t[j + 1];
    }
    if FirstToCover(lib, u, ip, e) {
      var i :| 0 <= i < |u| && u[i] == e && lib.contains(e.val.net, ip)
               && forall j | 0 <= j < i :: !lib.contains(u[j].val.net, ip);
      assert t[i + 1] == e && forall j | 0 < j < i + 1 :: t[j] == u[j - 1];
    }
  }

  /** The reference never deletes expired entries. */
  function DoRef(s: State, step: Step): State {
    match step
    case Tick(t) => s.(clock := t)
    case BlockNet(e) => s.(table := Upserted(s.table, e))
    case UnblockNet(cidr) => s.(table := Removed(s.table, cidr))
    case _ => s
  }

  /** A write is safe unless its network awaits deletion and the new entry is live. */
  predicate SafeStep(s: State, step: Step) {
    step.BlockNet? ==> step.e.key !in s.pending || Expired(step.e.val.expiration, s.clock)
  }

  predicate SafeRun(lib: NetLib, s: State, steps: seq<Step>)
    decreases |steps|
  {
    steps == [] ||
    (Enabled(s, steps[0]) && SafeStep(s, steps[0]) && SafeRun(lib, Do(lib, s, steps[0]), steps[1..]))
  }

  function After(lib: NetLib, s: State, steps: seq<Step>): State
    requires SafeRun(lib, s, steps)
    decreases |steps|
  {
    if steps == [] then s else After(lib, Do(lib, s, steps[0]), steps[1..])
  }

  function AfterRef(s: State, steps: seq<Step>): State
    decreases |steps|
  {
    if steps == [] then s else AfterRef(DoRef(s, steps[0]), steps[1..])
  }

  /** The networks that are blocked now. */
  function Live(s: State): map<string, CIDRBlock> {
    map c | c in ToMap(s.table) && !Expired(ToMap(s.table)[c].expiration, s.clock) :: ToMap(s.table)[c]
  }

  // ---- Simulation ---------------------------------------------------------

  ghost predicate RelatedAt(
    t: map<string, CIDRBlock>, full: map<string, CIDRBlock>, clock: int, pending: multiset<string>, c: string)
  {
    && (c in t ==> c in full && t[c] == full[c])
    && (c in full && (c !in t || c in pending) ==> Expired(full[c].expiration, clock))
  }

  ghost predicate Matches(t: map<string, CIDRBlock>, full: map<string, CIDRBlock>, clock: int, pending: multiset<string>) {
    forall c :: RelatedAt(t, full, clock, pending, c)
  }

  /** The code's table is the reference's with some expired entries missing, and only expired keys are queued. */
  ghost predicate Related(s: State, r: State) {
    && s.clock == r.clock && Distinct(s.table) && Distinct(r.table)
    && Matches(ToMap(s.table), ToMap(r.table), s.clock, s.pending)
  }

  /** A deletion is only queued for an entry that is expired by then. */
  lemma {:induction false} StopExpired(lib: NetLib, s: State, ip: IP)
    requires Distinct(s.table) && Scan(lib, s.table, ip, s.clock).Stale?
    ensures var c := Scan(lib, s.table, ip, s.clock).key;
            c in ToMap(s.table) && Expired(ToMap(s.table)[c].expiration, s.clock)
  {
    LookupSound(lib, s.table, ip, s.clock);
    var c := Scan(lib, s.table, ip, s.clock).key;
    var e :| e in ExpiredCovers(lib, s.table, ip, s.clock) && e.key == c;
    InMap(s.table, e);
  }

  lemma {:induction false} MatchesQueue(
    t: map<string, CIDRBlock>, full: map<string, CIDRBlock>, clock: int, pending: multiset<string>, pending': multiset<string>)
    requires Matches(t, full, clock, pending)
    requires forall c | c in pending' :: c in pending || (c in t && Expired(t[c].expiration, clock))
    ensures Matches(t, full, clock, pending')
  {
    forall c ensures RelatedAt(t, full, clock, pending', c) {
      assert RelatedAt(t, full, clock, pending, c);
    }
  }

  lemma {:induction false} MatchesSet(
    t: map<string, CIDRBlock>, full: map<string, CIDRBlock>, clock: int, pending: multiset<string>, x: string, v: CIDRBlock)
    requires Matches(t, full, clock, pending) && (x !in pending || Expired(v.expiration, clock))
    ensures Matches(t[x := v], full[x := v], clock, pending)
  {
    var t', full' := t[x := v], full[x := v];
    forall c ensures RelatedAt(t', full', clock, pending, c) {
      assert RelatedAt(t, full, clock, pending, c);
    }
  }

  lemma {:induction false} MatchesDrop(
    t: map<string, CIDRBlock>, full: map<string, CIDRBlock>, clock: int, pending: multiset<string>, x: string)
    requires Matches(t, full, clock, pending)
    ensures Matches(t - {x}, full - {x}, clock, pending)
    ensures x in pending ==> Matches(t - {x}, full, clock, pending - multiset{x})
  {
    var t', full', less := t - {x}, full - {x}, pending - multiset{x};
    forall c ensures RelatedAt(t', full', clock, pending, c) {
      assert RelatedAt(t, full, clock, pending, c);
    }
    if x in pending {
      forall c ensures RelatedAt(t', full, clock, less, c) {
        assert RelatedAt(t, full, clock, pending, c);
      }
    }
  }

  lemma {:induction false} RelatedStep(lib: NetLib, s: State, r: State, step: Step)
    requires Related(s, r) && Enabled(s, step) && SafeStep(s, step)
    ensures Related(Do(lib, s, step), DoRef(r, step))
  {
    var t, full := ToMap(s.table), ToMap(r.table);
    match step
    case Tick(t') =>
      forall c ensures RelatedAt(t, full, t', s.pending, c) {
        assert RelatedAt(t, full, s.clock, s.pending, c);
      }
    case Query(ip) =>
      if Scan(lib, s.table, ip, s.clock).Stale? {
        StopExpired(lib, s, ip);
        MatchesQueue(t, full, s.clock, s.pending, Do(lib, s, step).pending);
      }
    case BlockNet(e) =>
      UpsertMap(s.table, e);
      UpsertMap(r.table, e);
      MatchesSet(t, full, s.clock, s.pending, e.key, e.val);
    case UnblockNet(cidr) =>
      RemoveMap(s.table, cidr);
      RemoveMap(r.table, cidr);
      MatchesDrop(t, full, s.clock, s.pending, cidr);
    case Collect(now) =>
      forall c | c in ExpiredCidrs(s.table, now) ensures c in t && Expired(t[c].expiration, s.clock) {
        ExpiredCidrsAre(s.table, now, c);
      }
      MatchesQueue(t, full, s.clock, s.pending, Do(lib, s, step).pending);
    case Finish(cidr) =>
      RemoveMap(s.table, cidr);
      MatchesDrop(t, full, s.clock, s.pending, cidr);
  }

  lemma {:induction false} RelatedLive(s: State, r: State)
    requires Related(s, r)
    ensures Live(s) == Live(r)
  {
    var a, b := Live(s), Live(r);
    forall c | c in a ensures c in b && a[c] == b[c] {
      assert RelatedAt(ToMap(s.table), ToMap(r.table), s.clock, s.pending, c);
    }
    forall c | c in b ensures c in a {
      assert RelatedAt(ToMap(s.table), ToMap(r.table), s.clock, s.pending, c);
    }
  }

  /** In every safe run the blocked networks are those of the reference: only expired entries are ever deleted. */
  lemma {:induction false} NetExpiryInvisible(lib: NetLib, s: State, r: State, steps: seq<Step>)
    requires Related(s, r) && SafeRun(lib, s, steps)
    ensures Related(After(lib, s, steps), AfterRef(r, steps))
    ensures Live(After(lib, s, steps)) == Live(AfterRef(r, steps))
    decreases |steps|
  {
    if steps == [] {
      RelatedLive(s, r);
    } else {
      RelatedStep(lib, s, r, steps[0]);
      NetExpiryInvisible(lib, Do(lib, s, steps[0]), DoRef(r, steps[0]), steps[1..]);
    }
  }

  lemma {:induction false} StartRelated(clock: int, table: seq<CIDREntry>)
    requires Distinct(table)
    ensures var s := State(clock, table, multiset{}); Related(s, s)
  {
  }

  /** So a query there returns a network that the reference has blocked, or misses only if it has none that covers. */
  lemma {:induction false} QueryAnswers(
    lib: NetLib, clock: int, table: seq<CIDREntry>, steps: seq<Step>, ip: IP)
    requires Distinct(table) && SafeRun(lib, State(clock, table, multiset{}), steps)
    ensures var s, r := After(lib, State(clock, table, multiset{}), steps), AfterRef(State(clock, table, multiset{}), steps);
            match Scan(lib, s.table, ip, s.clock)
            case Hit(e) => e.key in Live(r) && Live(r)[e.key] == e.val && Covers(lib, e, ip)
            case Miss => forall c | c in Live(r) :: !Covers(lib, Row(c, Live(r)[c]), ip)
            case Stale(c) => c !in Live(r)
  {
    var start := State(clock, table, multiset{});
    StartRelated(clock, table);
    NetExpiryInvisible(lib, start, start, steps);
    var s, r := After(lib, start, steps), AfterRef(start, steps);
    LookupSound(lib, s.table, ip, s.clock);
    match Scan(lib, s.table, ip, s.clock)
    case Hit(e) => InMap(s.table, e);
    case Miss =>
      forall c | c in Live(s) ensures !Covers(lib, Row(c, Live(s)[c]), ip) {
        InMap(s.table, Row(c, Live(s)[c]));
      }
    case Stale(c) => StopExpired(lib, s, ip);
  }

  // ---- Exactness ----------------------------------------------------------

  ghost predicate SameLive(lib: NetLib, s: State, r: State, steps: seq<Step>) {
    SafeRun(lib, s, steps) ==> Live(After(lib, s, steps)) == Live(AfterRef(r, steps))
  }

  /** Blocking a network stays in force on every later run exactly when the write is safe. */
  lemma {:induction false} BlockInvisibleIff(lib: NetLib, s: State, r: State, e: CIDREntry)
    requires Related(s, r)
    ensures (forall steps :: SameLive(lib, Do(lib, s, BlockNet(e)), DoRef(r, BlockNet(e)), steps)) <==> SafeStep(s, BlockNet(e))
  {
    var s', r' := Do(lib, s, BlockNet(e)), DoRef(r, BlockNet(e));
    if SafeStep(s, BlockNet(e)) {
      RelatedStep(lib, s, r, BlockNet(e));
      forall steps ensures SameLive(lib, s', r', steps) {
        if SafeRun(lib, s', steps) {
          NetExpiryInvisible(lib, s', r', steps);
        }
      }
    } else {
      UnsafeBlock(lib, s, r, e);
    }
  }

  lemma {:induction false} UnsafeBlock(lib: NetLib, s: State, r: State, e: CIDREntry)
    requires Distinct(s.table) && Distinct(r.table) && s.clock == r.clock && !SafeStep(s, BlockNet(e))
    ensures !SameLive(lib, Do(lib, s, BlockNet(e)), DoRef(r, BlockNet(e)), [Finish(e.key)])
  {
    var s', r' := Do(lib, s, BlockNet(e)), DoRef(r, BlockNet(e));
    UpsertMap(s.table, e);
    UpsertMap(r.table, e);
    RemoveMap(s'.table, e.key);
    OneStep(lib, s', r', Finish(e.key));
    assert e.key !in Live(Do(lib, s', Finish(e.key))) && e.key in Live(r');
  }

  lemma {:induction false} OneStep(lib: NetLib, s: State, r: State, step: Step)
    requires Enabled(s, step) && SafeStep(s, step)
    ensures SafeRun(lib, s, [step]) && After(lib, s, [step]) == Do(lib, s, step) && AfterRef(r, [step]) == DoRef(r, step)
  {
    assert [step][1..] == [] && SafeRun(lib, Do(lib, s, step), []);
  }

  /** A query stops at an expired network, the network is blocked again, and the queued deletion takes the new block. */
  lemma {:induction false} ReblockCanBeLost(lib: NetLib, s: State, ip: IP, e: CIDREntry)
    requires Distinct(s.table) && Scan(lib, s.table, ip, s.clock) == Stale(e.key)
    requires !Expired(e.val.expiration, s.clock)
    ensures var s1 := Do(lib, s, Query(ip));
            var s2 := Do(lib, s1, BlockNet(e));
            && !SafeStep(s1, BlockNet(e)) && e.key in Live(s2)
            && Enabled(s2, Finish(e.key)) && e.key !in Live(Do(lib, s2, Finish(e.key)))
  {
    UpsertMap(s.table, e);
    RemoveMap(Upserted(s.table, e), e.key);
  }

  /** An expired network lends its first-seen time to a later block until its deletion has run, and not after. */
  lemma {:induction false} FirstSeenUntilDeleted(s: seq<CIDREntry>, c: string, now: int)
    requires Distinct(s) && c in ToMap(s)
    ensures FirstSeenCidr(s, c, now) == ToMap(s)[c].firstSeen
    ensures FirstSeenCidr(Removed(s, c), c, now) == now
  {
    MapGet(s, c);
    RemoveMap(s, c);
    MapGet(Removed(s, c), c);
  }
}
