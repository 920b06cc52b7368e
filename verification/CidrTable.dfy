/** The table of blocked networks: a slice with swap-with-last removal and a first-match scan. */
module CidrTable {
  import opened Text
  import opened Keys
  import opened Records
  import opened SliceMap

  // ---- Lookup -------------------------------------------------------------

  /** A scan misses, hits a live entry, or stops at an expired one and queues its deletion. */
  datatype LookupResult = Miss | Hit(e: CIDREntry) | Stale(key: string)

  predicate Covers(lib: NetLib, e: CIDREntry, ip: IP) {
    lib.contains(e.val.net, ip)
  }

  function Scan(lib: NetLib, s: seq<CIDREntry>, ip: IP, now: int): LookupResult {
    if s == [] then Miss
    else if Covers(lib, s[0], ip) then
      if Expired(s[0].val.expiration, now) then Stale(s[0].key) else Hit(s[0])
    else Scan(lib, s[1..], ip, now)
  }

  /** The entries that keep the scan from a live answer. */
  ghost function ExpiredCovers(lib: NetLib, s: seq<CIDREntry>, ip: IP, now: int): set<CIDREntry> {
    set e | e in s && Covers(lib, e, ip) && Expired(e.val.expiration, now)
  }

  ghost predicate LiveCover(lib: NetLib, s: seq<CIDREntry>, ip: IP, now: int, e: CIDREntry) {
    e in s && Covers(lib, e, ip) && !Expired(e.val.expiration, now)
  }

  /** What a scan that skipped expired entries would return. */
  function FirstLive(lib: NetLib, s: seq<CIDREntry>, ip: IP, now: int): Option<CIDREntry> {
    if s == [] then None
    else if Covers(lib, s[0], ip) && !Expired(s[0].val.expiration, now) then Some(s[0])
    else FirstLive(lib, s[1..], ip, now)
  }

  /** A hit is a live covering entry, a miss means nothing covers, a stop names an expired covering entry. */
  lemma {:induction false} LookupSound(lib: NetLib, s: seq<CIDREntry>, ip: IP, now: int)
    ensures match Scan(lib, s, ip, now)
            case Hit(e) => LiveCover(lib, s, ip, now, e)
            case Miss => forall e | e in s :: !Covers(lib, e, ip)
            case Stale(c) => exists e :: e in ExpiredCovers(lib, s, ip, now) && e.key == c
  {
    if s != [] {
      if Covers(lib, s[0], ip) {
        assert s[0] in s;
        assert Expired(s[0].val.expiration, now) ==> s[0] in ExpiredCovers(lib, s, ip, now);
      } else {
        LookupSound(lib, s[1..], ip, now);
        match Scan(lib, s[1..], ip, now)
        case Hit(e) =>
        case Miss =>
        case Stale(c) =>
          var e :| e in ExpiredCovers(lib, s[1..], ip, now) && e.key == c;
          assert e in ExpiredCovers(lib, s, ip, now);
      }
    }
  }

  /** What the caller of a lookup gets. */
  function Answer(r: LookupResult): Option<CIDREntry> {
    match r
    case Hit(e) => Some(e)
    case _ => None
  }

  /** Entry `i` covers the address, is expired, and no earlier entry covers the address. */
  ghost predicate StopsAt(lib: NetLib, s: seq<CIDREntry>, ip: IP, now: int, i: nat) {
    && i < |s| && Covers(lib, s[i], ip) && Expired(s[i].val.expiration, now)
    && forall j | 0 <= j < i :: !Covers(lib, s[j], ip)
  }

  lemma {:induction false} StaleIff(lib: NetLib, s: seq<CIDREntry>, ip: IP, now: int)
    ensures Scan(lib, s, ip, now).Stale? <==> exists i: nat :: StopsAt(lib, s, ip, now, i)
  {
    if s != [] {
      if Covers(lib, s[0], ip) {
        assert Expired(s[0].val.expiration, now) ==> StopsAt(lib, s, ip, now, 0);
      } else {
        StaleIff(lib, s[1..], ip, now);
        if i: nat :| StopsAt(lib, s[1..], ip, now, i) {
          assert forall j | 0 < j <= i :: s[j] == s[1..][j - 1];
          assert StopsAt(lib, s, ip, now, i + 1);
        }
        forall i: nat | StopsAt(lib, s, ip, now, i) ensures i > 0 && StopsAt(lib, s[1..], ip, now, i - 1) {
          assert forall j | 0 <= j < i - 1 :: s[1..][j] == s[j + 1];
        }
      }
    }
  }

  lemma {:induction false} FirstLiveIff(lib: NetLib, s: seq<CIDREntry>, ip: IP, now: int)
    ensures Answer(Scan(lib, s, ip, now)) == FirstLive(lib, s, ip, now)
            <==> !(Scan(lib, s, ip, now).Stale? && FirstLive(lib, s, ip, now).Some?)
    ensures FirstLive(lib, s, ip, now).Some? <==> exists e :: LiveCover(lib, s, ip, now, e)
  {
    if s != [] {
      FirstLiveIff(lib, s[1..], ip, now);
      assert LiveCover(lib, s, ip, now, s[0]) <==> Covers(lib, s[0], ip) && !Expired(s[0].val.expiration, now);
      assert forall e | LiveCover(lib, s[1..], ip, now, e) :: LiveCover(lib, s, ip, now, e);
      assert forall e | LiveCover(lib, s, ip, now, e) :: e == s[0] || LiveCover(lib, s[1..], ip, now, e);
    }
  }

  /** The lookup is one that skips expired entries unless the first entry to cover the address is expired
      and a live one covers it too. */
  lemma {:induction false} LookupSkipsExpiredIff(lib: NetLib, s: seq<CIDREntry>, ip: IP, now: int)
    ensures Answer(Scan(lib, s, ip, now)) == FirstLive(lib, s, ip, now)
            <==> !((exists i: nat :: StopsAt(lib, s, ip, now, i)) && exists e :: LiveCover(lib, s, ip, now, e))
  {
    StaleIff(lib, s, ip, now);
    FirstLiveIff(lib, s, ip, now);
  }

  /** Such a table: an expired entry in front of a permanent one hides it from the lookup. */
  lemma {:induction false} ExpiredHidesLive(lib: NetLib, wide: CIDREntry, narrow: CIDREntry, ip: IP)
    requires Covers(lib, wide, ip) && Covers(lib, narrow, ip)
    requires wide.val.expiration == 10 && narrow.val.expiration == 0
    ensures Answer(Scan(lib, [wide, narrow], ip, 10)) == None
    ensures FirstLive(lib, [wide, narrow], ip, 10) == Some(narrow)
  {
  }

  /** One lookup followed by the deletion it queues. */
  function Settle(lib: NetLib, s: seq<CIDREntry>, ip: IP, now: int): seq<CIDREntry> {
    match Scan(lib, s, ip, now)
    case Stale(c) => Removed(s, c)
    case _ => s
  }

  function AfterLookups(lib: NetLib, s: seq<CIDREntry>, ip: IP, now: int, n: nat): seq<CIDREntry>
    decreases n
  {
    if n == 0 then s else Settle(lib, AfterLookups(lib, s, ip, now, n - 1), ip, now)
  }

  lemma {:induction false} AfterFirst(lib: NetLib, s: seq<CIDREntry>, ip: IP, now: int, n: nat)
    ensures AfterLookups(lib, s, ip, now, n + 1) == AfterLookups(lib, Settle(lib, s, ip, now), ip, now, n)
  {
    if n > 0 {
      AfterFirst(lib, s, ip, now, n - 1);
    }
  }

  /** A lookup that stops removes one expired covering entry and nothing else. */
  lemma {:induction false} SettleStale(lib: NetLib, s: seq<CIDREntry>, ip: IP, now: int)
    requires Distinct(s) && Scan(lib, s, ip, now).Stale?
    ensures var t := Settle(lib, s, ip, now);
            && Distinct(t)
            && |ExpiredCovers(lib, t, ip, now)| == |ExpiredCovers(lib, s, ip, now)| - 1
            && (forall e | e in t :: e in s)
            && (forall e | e in s && !Expired(e.val.expiration, now) :: e in t)
  {
    LookupSound(lib, s, ip, now);
    var c := Scan(lib, s, ip, now).key;
    var x :| x in ExpiredCovers(lib, s, ip, now) && x.key == c;
    var t := Removed(s, c);
    RemoveMap(s, c);
    forall e ensures e in t <==> e in s && e != x {
      InMap(s, e);
      InMap(t, e);
      InMap(s, x);
    }
    assert ExpiredCovers(lib, t, ip, now) == ExpiredCovers(lib, s, ip, now) - {x};
  }

  /** With k expired entries covering an address that a live one also covers, k + 1 lookups reach a live one. */
  lemma {:induction false} LookupConverges(
    lib: NetLib, s: seq<CIDREntry>, ip: IP, now: int, live: CIDREntry, k: nat)
    returns (m: nat, hit: CIDREntry)
    requires Distinct(s) && LiveCover(lib, s, ip, now, live)
    requires k == |ExpiredCovers(lib, s, ip, now)|
    ensures m <= k
    ensures Scan(lib, AfterLookups(lib, s, ip, now, m), ip, now) == Hit(hit)
    ensures LiveCover(lib, s, ip, now, hit)
    decreases k
  {
    LookupSound(lib, s, ip, now);
    match Scan(lib, s, ip, now)
    case Hit(e) =>
      m, hit := 0, e;
    case Miss =>
      assert false;
    case Stale(c) =>
      var t := Settle(lib, s, ip, now);
      SettleStale(lib, s, ip, now);
      m, hit := LookupConverges(lib, t, ip, now, live, k - 1);
      AfterFirst(lib, s, ip, now, m);
      m := m + 1;
  }

  // ---- The table object ---------------------------------------------------

  /** The first entry of the slice that contains the address. */
  ghost predicate FirstToCover(lib: NetLib, s: seq<CIDREntry>, ip: IP, e: CIDREntry) {
    exists i :: 0 <= i < |s| && s[i] == e && lib.contains(e.val.net, ip)
                && forall j | 0 <= j < i :: !lib.contains(s[j].val.net, ip)
  }

  class CidrTableStore {
    var entries: seq<CIDREntry>

    ghost predicate Valid()
      reads this
    {
      Distinct(entries)
    }

    constructor ()
      ensures Valid() && entries == []
    {
      entries := [];
    }

    method Lookup(lib: NetLib, ip: IP, now: int) returns (r: LookupResult)
      ensures r == Scan(lib, entries, ip, now)
      ensures match r
              case Miss => forall e | e in entries :: !lib.contains(e.val.net, ip)
              case Hit(e) => FirstToCover(lib, entries, ip, e) && (e.val.expiration <= 0 || now < e.val.expiration)
              case Stale(c) =>
                exists e :: FirstToCover(lib, entries, ip, e) && e.key == c && 0 < e.val.expiration <= now
    {
      var i := 0;
      assert entries[0..] == entries;
      while i < |entries|
        invariant 0 <= i <= |entries|
        invariant forall j | 0 <= j < i :: !lib.contains(entries[j].val.net, ip)
        invariant Scan(lib, entries, ip, now) == Scan(lib, entries[i..], ip, now)
      {
        var e := entries[i];
        assert entries[i..][1..] == entries[i + 1..];
        if lib.contains(e.val.net, ip) {
          assert FirstToCover(lib, entries, ip, e);
          if e.val.expiration > 0 && e.val.expiration <= now {
            return Stale(e.key);
          }
          return Hit(e);
        }
        i := i + 1;
      }
      return Miss;
    }

    method FindByCIDR(cidr: string) returns (r: Option<CIDREntry>)
      requires Valid()
      ensures r == if cidr in ToMap(entries) then Some(Row(cidr, ToMap(entries)[cidr])) else None
    {
      MapGet(entries, cidr);
      for i := 0 to |entries|
        invariant forall k | 0 <= k < i :: entries[k].key != cidr
      {
        if entries[i].key == cidr {
          IndexUnique(entries, cidr, i);
          return Some(entries[i]);
        }
      }
      return None;
    }

    method Upsert(e: CIDREntry)
      requires Valid()
      modifies this
      ensures Valid() && entries == Upserted(old(entries), e)
      ensures ToMap(entries) == ToMap(old(entries))[e.key := e.val]
    {
      UpsertMap(entries, e);
      for i := 0 to |entries|
        invariant entries == old(entries)
        invariant forall k | 0 <= k < i :: entries[k].key != e.key
      {
        if entries[i].key == e.key {
          IndexUnique(entries, e.key, i);
          entries := entries[i := e];
          return;
        }
      }
      entries := entries + [e];
    }

    method Remove(cidr: string)
      requires Valid()
      modifies this
      ensures Valid() && entries == Removed(old(entries), cidr)
      ensures ToMap(entries) == ToMap(old(entries)) - {cidr}
    {
      RemoveMap(entries, cidr);
      for i := 0 to |entries|
        invariant entries == old(entries)
        invariant forall k | 0 <= k < i :: entries[k].key != cidr
      {
        if entries[i].key == cidr {
          IndexUnique(entries, cidr, i);
          var last := |entries| - 1;
          entries := entries[i := entries[last]];
          entries := entries[..last];
          return;
        }
      }
    }

    method Len() returns (n: nat)
      requires Valid()
      ensures n == |ToMap(entries)|
    {
      MapSize(entries);
      n := |entries|;
    }
  }
}
