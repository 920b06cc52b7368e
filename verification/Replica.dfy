/** The loaders and the two watchers' message handling, event by event on the instance's tables. */
module Replica {
  import opened Text
  import opened Keys
  import opened IPv4Text
  import opened SliceMap
  import opened Records
  import opened Replay
  import opened EtcdLog
  import opened CidrTable
  import opened Watchers

  /** A map after a message's events, for a watcher that turns events into updates. */
  function ApplyEvents<K(==), V>(f: WatchEvent -> Update<K, V>, m: map<K, V>, events: seq<WatchEvent>): map<K, V> {
    if events == [] then m
    else Apply(ApplyEvents(f, m, events[..|events| - 1]), f(events[|events| - 1]))
  }

  function ApplySliceEvents(
    f: WatchEvent -> Update<string, CIDRBlock>, s: seq<CIDREntry>, events: seq<WatchEvent>): seq<CIDREntry>
  {
    if events == [] then s
    else ApplySlice(ApplySliceEvents(f, s, events[..|events| - 1]), f(events[|events| - 1]))
  }

  function ApplyIpEvents(lib: NetLib, t: map<string, BlockEntry>, events: seq<WatchEvent>): map<string, BlockEntry> {
    ApplyEvents((e: WatchEvent) => IpUpdate(lib, e), t, events)
  }

  function ApplyCidrEvents(lib: NetLib, s: seq<CIDREntry>, events: seq<WatchEvent>): seq<CIDREntry> {
    ApplySliceEvents((e: WatchEvent) => CidrUpdate(lib, e), s, events)
  }

  function NextRevision(revision: int, header: Option<int>): int {
    match header
    case Some(rev) => Max(revision, rev)
    case None => revision
  }

  /** The events of log positions `[a, b)` that a watch on a prefix carries. */
  function Batch(log: seq<Event>, a: nat, b: nat, prefix: string): seq<WatchEvent>
    requires a <= b <= |log|
  {
    if a == b then []
    else Batch(log, a, b - 1, prefix)
         + if HasPrefix(log[b - 1].key, prefix) then [Delivered(log, b - 1)] else []
  }

  lemma {:induction false} BatchReplays<K, V>(
    f: WatchEvent -> Update<K, V>, log: seq<Event>, prefix: string, us: seq<Update<K, V>>,
    a: nat, b: nat, m: map<K, V>)
    requires a <= b <= |log| == |us|
    requires forall i | 0 <= i < |log| ::
               us[i] == if HasPrefix(log[i].key, prefix) then f(Delivered(log, i)) else Skip
    ensures ApplyEvents(f, m, Batch(log, a, b, prefix)) == ReplayFrom(m, us, a, b)
  {
    if a < b {
      BatchReplays(f, log, prefix, us, a, b - 1, m);
      var init, e := Batch(log, a, b - 1, prefix), Delivered(log, b - 1);
      if HasPrefix(log[b - 1].key, prefix) {
        assert (init + [e])[..|init|] == init;
      } else {
        assert Batch(log, a, b, prefix) == init;
      }
    }
  }

  lemma {:induction false} SliceEventsMap(
    f: WatchEvent -> Update<string, CIDRBlock>, s: seq<CIDREntry>, events: seq<WatchEvent>)
    requires Distinct(s)
    ensures var s' := ApplySliceEvents(f, s, events);
            Distinct(s') && ToMap(s') == ApplyEvents(f, ToMap(s), events)
  {
    if events != [] {
      var init := events[..|events| - 1];
      SliceEventsMap(f, s, init);
      ApplySliceMap(ApplySliceEvents(f, s, init), f(events[|events| - 1]));
    }
  }

  /** Handling an IP message is the same as delivering its log positions one by one. */
  lemma {:induction false} IpBatchIsDeliveries(
    lib: NetLib, log: seq<Event>, a: nat, b: nat, t: map<string, BlockEntry>)
    requires a <= b <= |log|
    ensures ApplyIpEvents(lib, t, Batch(log, a, b, RBL_PREFIX)) == ReplayFrom(t, IpUpdates(lib, log), a, b)
  {
    BatchReplays((e: WatchEvent) => IpUpdate(lib, e), log, RBL_PREFIX, IpUpdates(lib, log), a, b, t);
  }

  lemma {:induction false} CidrBatchIsDeliveries(
    lib: NetLib, log: seq<Event>, a: nat, b: nat, s: seq<CIDREntry>)
    requires a <= b <= |log| && Distinct(s)
    ensures var s' := ApplyCidrEvents(lib, s, Batch(log, a, b, CIDR_PREFIX));
            Distinct(s') && ToMap(s') == ReplayFrom(ToMap(s), CidrUpdates(lib, log), a, b)
  {
    var f := (e: WatchEvent) => CidrUpdate(lib, e);
    BatchReplays(f, log, CIDR_PREFIX, CidrUpdates(lib, log), a, b, ToMap(s));
    SliceEventsMap(f, s, Batch(log, a, b, CIDR_PREFIX));
  }

  // ---- A message as steps of a run ----------------------------------------

  function Repeat(step: Step, k: nat): seq<Step> {
    if k == 0 then [] else Repeat(step, k - 1) + [step]
  }

  lemma {:induction false} BatchNext<K, V>(
    f: WatchEvent -> Update<K, V>, log: seq<Event>, prefix: string, a: nat, b: nat, m: map<K, V>, u: Update<K, V>)
    requires a <= b < |log| && u == if HasPrefix(log[b].key, prefix) then f(Delivered(log, b)) else Skip
    ensures ApplyEvents(f, m, Batch(log, a, b + 1, prefix)) == Apply(ApplyEvents(f, m, Batch(log, a, b, prefix)), u)
  {
    var init, e := Batch(log, a, b, prefix), Delivered(log, b);
    assert (init + [e])[..|init|] == init;
    assert init + [] == init;
  }

  lemma {:induction false} SliceBatchNext(
    f: WatchEvent -> Update<string, CIDRBlock>, log: seq<Event>, prefix: string, a: nat, b: nat, s: seq<CIDREntry>,
    u: Update<string, CIDRBlock>)
    requires a <= b < |log| && u == if HasPrefix(log[b].key, prefix) then f(Delivered(log, b)) else Skip
    ensures ApplySliceEvents(f, s, Batch(log, a, b + 1, prefix))
            == ApplySlice(ApplySliceEvents(f, s, Batch(log, a, b, prefix)), u)
  {
    var init, e := Batch(log, a, b, prefix), Delivered(log, b);
    assert (init + [e])[..|init|] == init;
    assert init + [] == init;
  }

  ghost predicate Moves<S>(reach: (seq<Step>, S) -> bool, after: nat -> S, step: Step, w: seq<Step>, j: nat) {
    reach(w, after(j)) ==> reach(w + [step], after(j + 1))
  }

  /** Where one step leads on, the repeated step does. */
  lemma {:induction false} Repeated<S>(
    reach: (seq<Step>, S) -> bool, after: nat -> S, step: Step, steps: seq<Step>, a: nat, b: nat)
    requires a <= b && reach(steps, after(a)) && forall w, j: nat | a <= j < b :: Moves(reach, after, step, w, j)
    ensures reach(steps + Repeat(step, b - a), after(b))
    decreases b
  {
    if b == a {
      assert steps + [] == steps;
    } else {
      Repeated(reach, after, step, steps, a, b - 1);
      var w := steps + Repeat(step, b - 1 - a);
      assert Moves(reach, after, step, w, b - 1);
      assert steps + Repeat(step, b - a) == w + [step];
    }
  }

  /** The instance after an IP message with this header and the events up to position `b`. */
  function AfterIpMessage(lib: NetLib, log: seq<Event>, s: State, b: nat): State
    requires s.ip.next <= b <= |log|
  {
    s.(ips := ApplyIpEvents(lib, s.ips, Batch(log, s.ip.next, b, RBL_PREFIX)), ip := s.ip.(next := b))
  }

  function AfterCidrMessage(lib: NetLib, log: seq<Event>, s: State, b: nat): State
    requires s.cidr.next <= b <= |log|
  {
    s.(cidrs := ApplyCidrEvents(lib, s.cidrs, Batch(log, s.cidr.next, b, CIDR_PREFIX)), cidr := s.cidr.(next := b))
  }

  /** Where a delivery step leads, if it can be taken. */
  ghost predicate IpDelivers(lib: NetLib, log: seq<Event>, reach: (seq<Step>, State) -> bool, w: seq<Step>, t: State) {
    reach(w, t) && t.ip.up && t.ip.next < t.len <= |log| && RevisionAt(t.ip.next + 1) <= t.cursor ==>
      reach(w + [DeliverIp],
            t.(ips := Apply(t.ips, IpUpdates(lib, log)[t.ip.next]), ip := t.ip.(next := t.ip.next + 1)))
  }

  function IpAfters(lib: NetLib, log: seq<Event>, s: State): nat -> State {
    (j: nat) => if s.ip.next <= j <= |log| then AfterIpMessage(lib, log, s, j) else s
  }

  lemma {:induction false} NoIpEvents(lib: NetLib, log: seq<Event>, s: State)
    requires s.ip.next <= |log|
    ensures AfterIpMessage(lib, log, s, s.ip.next) == s
  {
  }

  lemma {:induction false} IpNext(lib: NetLib, log: seq<Event>, s: State, b: nat)
    requires s.ip.next <= b < |log|
    ensures var t := AfterIpMessage(lib, log, s, b);
            AfterIpMessage(lib, log, s, b + 1)
            == t.(ips := Apply(t.ips, IpUpdates(lib, log)[b]), ip := t.ip.(next := b + 1))
  {
    BatchNext((e: WatchEvent) => IpUpdate(lib, e), log, RBL_PREFIX, s.ip.next, b, s.ips, IpUpdates(lib, log)[b]);
  }

  lemma {:induction false} IpMoves(
    lib: NetLib, log: seq<Event>, reach: (seq<Step>, State) -> bool, s: State, b: nat, w: seq<Step>)
    requires s.ip.up && s.ip.next <= b < s.len <= |log| && RevisionAt(b + 1) <= s.cursor
    requires forall w, t :: IpDelivers(lib, log, reach, w, t)
    ensures Moves(reach, IpAfters(lib, log, s), DeliverIp, w, b)
  {
    assert IpDelivers(lib, log, reach, w, AfterIpMessage(lib, log, s, b));
    IpNext(lib, log, s, b);
  }

  lemma {:induction false} IpDeliveries(
    lib: NetLib, log: seq<Event>, reach: (seq<Step>, State) -> bool, steps: seq<Step>, s: State, a: nat, b: nat)
    requires s.ip.up && s.ip.next == a <= b <= s.len <= |log| && (b > a ==> RevisionAt(b) <= s.cursor)
    requires reach(steps, IpAfters(lib, log, s)(a)) && forall w, t :: IpDelivers(lib, log, reach, w, t)
    ensures reach(steps + Repeat(DeliverIp, b - a), IpAfters(lib, log, s)(b))
  {
    forall w, j: nat | a <= j < b ensures Moves(reach, IpAfters(lib, log, s), DeliverIp, w, j) {
      IpMoves(lib, log, reach, s, j, w);
    }
    Repeated(reach, IpAfters(lib, log, s), DeliverIp, steps, a, b);
  }

  lemma {:induction false} IpRunsDeliver(lib: NetLib, log: seq<Event>, w: seq<Step>, t: State)
    ensures IpDelivers(lib, log, (w, t) => Reaches(lib, log, w, t), w, t)
  {
    if Reaches(lib, log, w, t) && t.ip.up && t.ip.next < t.len <= |log| && RevisionAt(t.ip.next + 1) <= t.cursor {
      var _ := HandOn(lib, log, w, t);
    }
  }

  /** Where a delivery step leads, if it can be taken. */
  ghost predicate CidrDelivers(lib: NetLib, log: seq<Event>, reach: (seq<Step>, State) -> bool, w: seq<Step>, t: State) {
    reach(w, t) && t.cidr.up && t.cidr.next < t.len <= |log| && RevisionAt(t.cidr.next + 1) <= t.cursor ==>
      reach(w + [DeliverCidr],
            t.(cidrs := ApplySlice(t.cidrs, CidrUpdates(lib, log)[t.cidr.next]), cidr := t.cidr.(next := t.cidr.next + 1)))
  }

  function CidrAfters(lib: NetLib, log: seq<Event>, s: State): nat -> State {
    (j: nat) => if s.cidr.next <= j <= |log| then AfterCidrMessage(lib, log, s, j) else s
  }

  lemma {:induction false} NoCidrEvents(lib: NetLib, log: seq<Event>, s: State)
    requires s.cidr.next <= |log|
    ensures AfterCidrMessage(lib, log, s, s.cidr.next) == s
  {
  }

  lemma {:induction false} CidrNext(lib: NetLib, log: seq<Event>, s: State, b: nat)
    requires s.cidr.next <= b < |log|
    ensures var t := AfterCidrMessage(lib, log, s, b);
            AfterCidrMessage(lib, log, s, b + 1)
            == t.(cidrs := ApplySlice(t.cidrs, CidrUpdates(lib, log)[b]), cidr := t.cidr.(next := b + 1))
  {
    SliceBatchNext((e: WatchEvent) => CidrUpdate(lib, e), log, CIDR_PREFIX, s.cidr.next, b, s.cidrs, CidrUpdates(lib, log)[b]);
  }

  lemma {:induction false} CidrMoves(
    lib: NetLib, log: seq<Event>, reach: (seq<Step>, State) -> bool, s: State, b: nat, w: seq<Step>)
    requires s.cidr.up && s.cidr.next <= b < s.len <= |log| && RevisionAt(b + 1) <= s.cursor
    requires forall w, t :: CidrDelivers(lib, log, reach, w, t)
    ensures Moves(reach, CidrAfters(lib, log, s), DeliverCidr, w, b)
  {
    assert CidrDelivers(lib, log, reach, w, AfterCidrMessage(lib, log, s, b));
    CidrNext(lib, log, s, b);
  }

  lemma {:induction false} CidrDeliveries(
    lib: NetLib, log: seq<Event>, reach: (seq<Step>, State) -> bool, steps: seq<Step>, s: State, a: nat, b: nat)
    requires s.cidr.up && s.cidr.next == a <= b <= s.len <= |log| && (b > a ==> RevisionAt(b) <= s.cursor)
    requires reach(steps, CidrAfters(lib, log, s)(a)) && forall w, t :: CidrDelivers(lib, log, reach, w, t)
    ensures reach(steps + Repeat(DeliverCidr, b - a), CidrAfters(lib, log, s)(b))
  {
    forall w, j: nat | a <= j < b ensures Moves(reach, CidrAfters(lib, log, s), DeliverCidr, w, j) {
      CidrMoves(lib, log, reach, s, j, w);
    }
    Repeated(reach, CidrAfters(lib, log, s), DeliverCidr, steps, a, b);
  }

  lemma {:induction false} CidrRunsDeliver(lib: NetLib, log: seq<Event>, w: seq<Step>, t: State)
    ensures CidrDelivers(lib, log, (w, t) => Reaches(lib, log, w, t), w, t)
  {
    if Reaches(lib, log, w, t) && t.cidr.up && t.cidr.next < t.len <= |log| && RevisionAt(t.cidr.next + 1) <= t.cursor {
      var _ := HandOnCidr(lib, log, w, t);
    }
  }

  /** What handling an IP message does to an instance is a header step and one delivery step a position. */
  lemma {:induction false} IpMessageIsRun(lib: NetLib, log: seq<Event>, steps: seq<Step>, s: State, rev: int, b: nat)
    requires Reaches(lib, log, steps, s) && s.ip.up && s.ip.next <= b <= s.len <= |log|
    requires rev <= RevisionAt(s.len) && (b > s.ip.next ==> RevisionAt(b) <= NextRevision(s.cursor, Some(rev)))
    ensures Reaches(lib, log, steps + [HeaderIp(rev)] + Repeat(DeliverIp, b - s.ip.next),
                    AfterIpMessage(lib, log, s.(cursor := NextRevision(s.cursor, Some(rev))), b))
  {
    var s1 := s.(cursor := NextRevision(s.cursor, Some(rev)));
    ReachNext(lib, log, steps, s, HeaderIp(rev), s1);
    var reach := (w, t) => Reaches(lib, log, w, t);
    forall w, t ensures IpDelivers(lib, log, reach, w, t) {
      IpRunsDeliver(lib, log, w, t);
    }
    NoIpEvents(lib, log, s1);
    IpDeliveries(lib, log, reach, steps + [HeaderIp(rev)], s1, s.ip.next, b);
  }

  lemma {:induction false} CidrMessageIsRun(lib: NetLib, log: seq<Event>, steps: seq<Step>, s: State, rev: int, b: nat)
    requires Reaches(lib, log, steps, s) && s.cidr.up && s.cidr.next <= b <= s.len <= |log|
    requires rev <= RevisionAt(s.len) && (b > s.cidr.next ==> RevisionAt(b) <= NextRevision(s.cursor, Some(rev)))
    ensures Reaches(lib, log, steps + [HeaderCidr(rev)] + Repeat(DeliverCidr, b - s.cidr.next),
                    AfterCidrMessage(lib, log, s.(cursor := NextRevision(s.cursor, Some(rev))), b))
  {
    var s1 := s.(cursor := NextRevision(s.cursor, Some(rev)));
    ReachNext(lib, log, steps, s, HeaderCidr(rev), s1);
    var reach := (w, t) => Reaches(lib, log, w, t);
    forall w, t ensures CidrDelivers(lib, log, reach, w, t) {
      CidrRunsDeliver(lib, log, w, t);
    }
    NoCidrEvents(lib, log, s1);
    CidrDeliveries(lib, log, reach, steps + [HeaderCidr(rev)], s1, s.cidr.next, b);
  }

  class Instance {
    /** `gEtcdRevision`, shared by both watchers. */
    var revision: int
    var ips: map<string, BlockEntry>
    const cidrs: CidrTableStore

    constructor ()
      ensures revision == 0 && ips == map[]
      ensures fresh(cidrs) && cidrs.Valid() && cidrs.entries == []
    {
      revision, ips := 0, map[];
      cidrs := new CidrTableStore();
    }

    /** Called once, on the empty table. */
    method LoadFromEtcd(kvs: seq<RangeRow>, rev: int)
      requires ips == map[]
      modifies this
      ensures revision == rev && ips == LoadIp(kvs)
    {
      revision := rev;
      assert kvs[..0] == [];
      for i := 0 to |kvs|
        invariant revision == rev && ips == LoadIp(kvs[..i])
      {
        assert kvs[..i + 1][..i] == kvs[..i];
        var decoded := Decode(kvs[i].val.value);
        var rec := if decoded.Some? then decoded.value else ZERO_RECORD;
        var parts := Split(kvs[i].key, '/');
        if |parts| >= 4 {
          var ip := Join(parts[|parts| - 4..], '.');
          var code := IPv4StrToUint32(rec.host);
          ips := ips[ip := BlockEntry(ip, rec.source, rec.scenario, rec.action,
                                      kvs[i].val.createRevision, kvs[i].val.modRevision,
                                      rec.firstSeen, rec.lastSeen, rec.expiration, code)];
        }
      }
      assert kvs[..|kvs|] == kvs;
    }

    method LoadCIDRFromEtcd(lib: NetLib, kvs: seq<RangeRow>)
      requires cidrs.Valid() && cidrs.entries == []
      modifies cidrs
      ensures cidrs.Valid() && cidrs.entries == LoadSlice(lib, kvs)
    {
      assert kvs[..0] == [];
      for i := 0 to |kvs|
        invariant cidrs.Valid() && cidrs.entries == LoadSlice(lib, kvs[..i])
      {
        assert kvs[..i + 1][..i] == kvs[..i];
        var cidr := CidrFromEtcdKey(kvs[i].key);
        if cidr != "" {
          var rec := Decode(kvs[i].val.value);
          if rec.Some? {
            var network := lib.parseCIDR(cidr);
            if network.Some? {
              cidrs.Upsert(CIDREntryOf(cidr, network.value, rec.value));
            }
          }
        }
      }
      assert kvs[..|kvs|] == kvs;
    }

    /** One line of the IP watch: the header's revision is stored before the events are applied. */
    method HandleIpMessage(lib: NetLib, header: Option<int>, events: seq<WatchEvent>)
      modifies this
      ensures revision == NextRevision(old(revision), header)
      ensures ips == ApplyIpEvents(lib, old(ips), events)
    {
      if header.Some? && header.value > revision {
        revision := header.value;
      }
      assert events[..0] == [];
      for i := 0 to |events|
        invariant revision == NextRevision(old(revision), header)
        invariant ips == ApplyIpEvents(lib, old(ips), events[..i])
      {
        assert events[..i + 1][..i] == events[..i];
        var ev := events[i];
        var ip := IpFromKey(lib, ev.key);
        if ip != "" {
          match ev
          case WatchDelete(_) =>
            ips := ips - {ip};
          case WatchPut(_, kv) =>
            var rec := Decode(kv.value);
            if rec.Some? {
              if ParseIP(lib, ip).Some? {
                var code := IPv4StrToUint32(rec.value.host);
                ips := ips[ip := EntryOf(ip, rec.value, kv.createRevision, kv.modRevision).(returnCode := code)];
              }
            }
        }
      }
      assert events[..|events|] == events;
    }

    method HandleCidrMessage(lib: NetLib, header: Option<int>, events: seq<WatchEvent>)
      requires cidrs.Valid()
      modifies this`revision, cidrs
      ensures revision == NextRevision(old(revision), header)
      ensures cidrs.Valid() && cidrs.entries == ApplyCidrEvents(lib, old(cidrs.entries), events)
    {
      if header.Some? {
        UpdateRevision(header.value);
      }
      assert events[..0] == [];
      for i := 0 to |events|
        invariant revision == NextRevision(old(revision), header)
        invariant cidrs.Valid() && cidrs.entries == ApplyCidrEvents(lib, old(cidrs.entries), events[..i])
      {
        assert events[..i + 1][..i] == events[..i];
        HandleCidrEvent(lib, events[i]);
      }
      assert events[..|events|] == events;
    }

    method HandleCidrEvent(lib: NetLib, ev: WatchEvent)
      requires cidrs.Valid()
      modifies cidrs
      ensures cidrs.Valid() && cidrs.entries == ApplySlice(old(cidrs.entries), CidrUpdate(lib, ev))
    {
      var cidr := CidrFromEtcdKey(ev.key);
      if cidr != "" {
        match ev
        case WatchDelete(_) =>
          cidrs.Remove(cidr);
        case WatchPut(_, kv) =>
          var rec := Decode(kv.value);
          if rec.Some? {
            var network := lib.parseCIDR(cidr);
            if network.Some? {
              cidrs.Upsert(CIDREntryOf(cidr, network.value, rec.value));
            }
          }
      }
    }

    method UpdateRevision(rev: int)
      modifies this`revision
      ensures revision == Max(old(revision), rev)
    {
      if rev > revision {
        revision := rev;
      }
    }
  }
}
