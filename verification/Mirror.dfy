/** When a table mirrors a key-value state, and why the fold of the log and a range load both do. */
module Mirror {
  import opened Text
  import opened IPv4Text
  import opened Keys
  import opened SliceMap
  import opened Records
  import opened Replay
  import opened EtcdLog

  /** Entries as they are, or with their revision fields set aside. */
  function Norm(exact: bool, e: BlockEntry): BlockEntry {
    if exact then e else e.(createRevision := 0, modRevision := 0)
  }

  function KeyFor(ip: string): string {
    RblKey(V4(Parse(ip)))
  }

  function RecordIn(kv: KV): BlockRecord {
    var rec := Decode(kv.value);
    if rec.Some? then rec.value else ZERO_RECORD
  }

  function EntryIn(ip: string, kv: KV): BlockEntry {
    EntryOf(ip, RecordIn(kv), kv.createRevision, kv.modRevision)
  }

  ghost predicate IpAt(exact: bool, t: map<string, BlockEntry>, m: map<string, KV>, ip: string) {
    && (ip in t <==> DottedQuad(ip) && KeyFor(ip) in m)
    && (ip in t ==> Norm(exact, t[ip]) == Norm(exact, EntryIn(ip, m[KeyFor(ip)])))
  }

  /** The IP table holds exactly the records under the IPv4 keys, each under its dotted quad. */
  ghost predicate IpMirror(exact: bool, t: map<string, BlockEntry>, m: map<string, KV>) {
    forall ip :: IpAt(exact, t, m, ip)
  }

  lemma {:induction false} IpMirrorUnique(t: map<string, BlockEntry>, t': map<string, BlockEntry>, m: map<string, KV>)
    requires IpMirror(true, t, m) && IpMirror(true, t', m)
    ensures t == t'
  {
    forall ip | ip in t ensures ip in t' && t[ip] == t'[ip] {
      assert IpAt(true, t, m, ip) && IpAt(true, t', m, ip);
    }
    forall ip | ip in t' ensures ip in t {
      assert IpAt(true, t, m, ip) && IpAt(true, t', m, ip);
    }
  }

  /** Among dotted quads, the key determines the text. */
  lemma {:induction false} KeyForInjective(ip: string, n: U32)
    requires DottedQuad(ip)
    ensures KeyFor(ip) == RblKey(V4(n)) <==> ip == Dotted(n)
  {
    DottedParse(ip);
    ParseDotted(n);
    AddressKeysInjective(V4(Parse(ip)), V4(n));
  }

  lemma {:induction false} IpMirrorSet(
    exact: bool, t: map<string, BlockEntry>, m: map<string, KV>, n: U32, kv: KV, e: BlockEntry)
    requires IpMirror(exact, t, m)
    requires Norm(exact, e) == Norm(exact, EntryIn(Dotted(n), kv))
    ensures IpMirror(exact, t[Dotted(n) := e], m[RblKey(V4(n)) := kv])
  {
    DottedIsQuad(n);
    KeyForInjective(Dotted(n), n);
    var t', m' := t[Dotted(n) := e], m[RblKey(V4(n)) := kv];
    forall ip ensures IpAt(exact, t', m', ip) {
      assert IpAt(exact, t, m, ip);
      if DottedQuad(ip) {
        KeyForInjective(ip, n);
      }
    }
  }

  lemma {:induction false} IpMirrorUnset(exact: bool, t: map<string, BlockEntry>, m: map<string, KV>, n: U32)
    requires IpMirror(exact, t, m)
    ensures IpMirror(exact, t - {Dotted(n)}, m - {RblKey(V4(n))})
  {
    forall ip ensures IpAt(exact, t - {Dotted(n)}, m - {RblKey(V4(n))}, ip) {
      assert IpAt(exact, t, m, ip);
      if DottedQuad(ip) {
        KeyForInjective(ip, n);
      } else {
        DottedIsQuad(n);
      }
    }
  }

  /** States that agree on the IPv4 keys are mirrored alike. */
  lemma {:induction false} IpMirrorOther(exact: bool, t: map<string, BlockEntry>, m: map<string, KV>, m': map<string, KV>)
    requires IpMirror(exact, t, m)
    requires forall n: U32 :: SameAt(m, m', RblKey(V4(n)))
    ensures IpMirror(exact, t, m')
  {
    forall ip ensures IpAt(exact, t, m', ip) {
      assert IpAt(exact, t, m, ip);
      assert SameAt(m, m', KeyFor(ip));
    }
  }

  // ---- Networks -----------------------------------------------------------

  ghost predicate CidrAt(lib: NetLib, t: map<string, CIDRBlock>, m: map<string, KV>, c: string) {
    && (c in t <==> '_' !in c && c != "" && CidrToEtcdKey(c) in m && lib.parseCIDR(c).Some?)
    && (c in t ==>
          t[c] == CIDREntryOf(c, lib.parseCIDR(c).value, RecordIn(m[CidrToEtcdKey(c)])).val)
  }

  /** The CIDR table holds exactly the records under the CIDR keys that name a network. */
  ghost predicate CidrMirror(lib: NetLib, t: map<string, CIDRBlock>, m: map<string, KV>) {
    forall c :: CidrAt(lib, t, m, c)
  }

  lemma {:induction false} CidrMirrorUnique(
    lib: NetLib, t: map<string, CIDRBlock>, t': map<string, CIDRBlock>, m: map<string, KV>)
    requires CidrMirror(lib, t, m) && CidrMirror(lib, t', m)
    ensures t == t'
  {
    forall c | c in t ensures c in t' && t[c] == t'[c] {
      assert CidrAt(lib, t, m, c) && CidrAt(lib, t', m, c);
    }
    forall c | c in t' ensures c in t {
      assert CidrAt(lib, t, m, c) && CidrAt(lib, t', m, c);
    }
  }

  /** Storing a record under a CIDR key stores its entry, or nothing if the text names no network. */
  lemma {:induction false} CidrMirrorSet(
    lib: NetLib, t: map<string, CIDRBlock>, m: map<string, KV>, c: string, kv: KV)
    requires CidrMirror(lib, t, m) && '_' !in c && c != ""
    ensures var m' := m[CidrToEtcdKey(c) := kv];
            CidrMirror(lib, if lib.parseCIDR(c).Some?
                            then t[c := CIDREntryOf(c, lib.parseCIDR(c).value, RecordIn(kv)).val] else t, m')
  {
    var m' := m[CidrToEtcdKey(c) := kv];
    var t' := if lib.parseCIDR(c).Some?
              then t[c := CIDREntryOf(c, lib.parseCIDR(c).value, RecordIn(kv)).val] else t;
    forall d ensures CidrAt(lib, t', m', d) {
      assert CidrAt(lib, t, m, d);
      if '_' !in d && CidrToEtcdKey(d) == CidrToEtcdKey(c) {
        CidrKeyInjective(c, d);
      }
    }
  }

  lemma {:induction false} CidrMirrorUnset(lib: NetLib, t: map<string, CIDRBlock>, m: map<string, KV>, c: string)
    requires CidrMirror(lib, t, m) && '_' !in c
    ensures CidrMirror(lib, t - {c}, m - {CidrToEtcdKey(c)})
  {
    forall d ensures CidrAt(lib, t - {c}, m - {CidrToEtcdKey(c)}, d) {
      assert CidrAt(lib, t, m, d);
      if '_' !in d && CidrToEtcdKey(d) == CidrToEtcdKey(c) {
        CidrKeyInjective(c, d);
      }
    }
  }

  lemma {:induction false} CidrMirrorOther(
    lib: NetLib, t: map<string, CIDRBlock>, m: map<string, KV>, m': map<string, KV>)
    requires CidrMirror(lib, t, m)
    requires forall c :: SameAt(m, m', CidrToEtcdKey(c))
    ensures CidrMirror(lib, t, m')
  {
    forall c ensures CidrAt(lib, t, m', c) {
      assert CidrAt(lib, t, m, c);
      assert SameAt(m, m', CidrToEtcdKey(c));
    }
  }

  // ---- Folding the log ----------------------------------------------------

  lemma {:induction false} StartsWith(p: string, x: string)
    ensures HasPrefix(p + "/" + x, p) && HasPrefix(p + "/" + x, p + "/")
  {
  }

  lemma {:induction false} RblPrefixes(ip: IP)
    ensures HasPrefix(RblKey(ip), RBL_PREFIX) && HasPrefix(RblKey(ip), RBL_PREFIX_SCAN)
    ensures !HasPrefix(RblKey(ip), CIDR_PREFIX)
    ensures !HasPrefix(ReverseKey(ip), RBL_PREFIX)
  {
    StartsWith(RBL_PREFIX, Join(Segments(ip), '/'));
    PrefixFacts();
    assert RblKey(ip)[31] == '/';
    assert ReverseKey(ip)[8] == 'a';
  }

  lemma {:induction false} CidrPrefixes(c: string)
    ensures HasPrefix(CidrToEtcdKey(c), CIDR_PREFIX) && HasPrefix(CidrToEtcdKey(c), CIDR_PREFIX_SCAN)
    ensures HasPrefix(CidrToEtcdKey(c), RBL_PREFIX)
  {
  }

  /** Prefix facts of known keys: each family's own prefix, and no other. */
  lemma {:induction false} KeyPrefixes(ip: IP, c: string)
    ensures HasPrefix(RblKey(ip), RBL_PREFIX) && HasPrefix(RblKey(ip), RBL_PREFIX_SCAN)
    ensures !HasPrefix(RblKey(ip), CIDR_PREFIX)
    ensures HasPrefix(CidrToEtcdKey(c), CIDR_PREFIX) && HasPrefix(CidrToEtcdKey(c), CIDR_PREFIX_SCAN)
    ensures HasPrefix(CidrToEtcdKey(c), RBL_PREFIX)
    ensures !HasPrefix(ReverseKey(ip), RBL_PREFIX)
  {
    RblPrefixes(ip);
    CidrPrefixes(c);
  }

  /** One event at an IPv4 key: the fold's update and the state's change mirror each other. */
  lemma {:induction false} IpEvent(lib: NetLib, log: seq<Event>, i: nat, n: U32, t: map<string, BlockEntry>)
    requires i < |log| && log[i].key == RblKey(V4(n))
    requires IpMirror(true, t, ReadableAt(log, i))
    ensures IpMirror(true, Apply(t, IpUpdate(lib, Delivered(log, i))), ReadableAt(log, i + 1))
  {
    var m := ReadableAt(log, i);
    IpFromRblKey(lib, n);
    DottedNotEmpty(n);
    match log[i]
    case Put(k, v) =>
      var kv := StateAt(log, i + 1)[k];
      if !v.Malformed? {
        IpMirrorSet(true, t, m, n, kv, EntryIn(Dotted(n), kv));
      }
    case Delete(k) =>
      IpMirrorUnset(true, t, m, n);
  }

  lemma {:induction false} DottedNotEmpty(n: U32)
    ensures Dotted(n) != ""
  {
  }

  /** Events at keys of other families leave the IPv4 keys alone. */
  lemma {:induction false} IpOtherEvent(log: seq<Event>, i: nat, t: map<string, BlockEntry>)
    requires i < |log| && !HasRbl(log[i].key)
    requires IpMirror(true, t, ReadableAt(log, i))
    ensures IpMirror(true, t, ReadableAt(log, i + 1))
  {
    var m, m' := ReadableAt(log, i), ReadableAt(log, i + 1);
    forall n: U32 ensures SameAt(m, m', RblKey(V4(n))) {
      assert !IsRblKey(log[i].key, n);
    }
    IpMirrorOther(true, t, m, m');
  }

  lemma {:induction false} NotRblKey(lib: NetLib, k: string)
    requires Lawful(lib) && KnownKey(k) && !HasRbl(k)
    ensures HasPrefix(k, RBL_PREFIX) ==> IpFromKey(lib, k) == ""
  {
    if HasPrefix(k, RBL_PREFIX) {
      var c :| IsCidrKey(k, c);
      CidrKeyIsNoIp(lib, c);
    }
  }

  lemma {:induction false} RblKeyPrefix(k: string)
    requires HasRbl(k)
    ensures HasPrefix(k, RBL_PREFIX)
  {
  }

  lemma {:induction false} CidrKeyPrefix(k: string)
    requires HasCidr(k)
    ensures HasPrefix(k, CIDR_PREFIX)
  {
  }

  lemma {:induction false} IpStep(lib: NetLib, log: seq<Event>, i: nat, t: map<string, BlockEntry>)
    requires Lawful(lib) && i < |log| && KnownKey(log[i].key)
    requires IpMirror(true, t, ReadableAt(log, i))
    ensures IpMirror(true, Apply(t, IpUpdates(lib, log)[i]), ReadableAt(log, i + 1))
  {
    var k := log[i].key;
    if HasRbl(k) {
      var a: U32 :| IsRblKey(k, a);
      RblKeyPrefix(k);
      IpEvent(lib, log, i, a, t);
    } else {
      IpOtherEvent(log, i, t);
      NotRblKey(lib, k);
      assert IpUpdates(lib, log)[i] == Skip;
    }
  }

  lemma {:induction false} EmptyMirrors(lib: NetLib, exact: bool)
    ensures IpMirror(exact, map[], map[]) && CidrMirror(lib, map[], map[])
  {
  }

  /** The fold of the log is the image of the last decodable values under the IPv4 keys. */
  lemma {:induction false} IpFoldMirrors(lib: NetLib, log: seq<Event>, n: nat)
    requires Lawful(lib) && KnownLog(log) && n <= |log|
    ensures IpMirror(true, Fold(IpUpdates(lib, log), n), ReadableAt(log, n))
  {
    if n == 0 {
      EmptyMirrors(lib, true);
    } else {
      IpFoldMirrors(lib, log, n - 1);
      var us := IpUpdates(lib, log);
      IpStep(lib, log, n - 1, Fold(us, n - 1));
      assert Fold(us, n) == Apply(Fold(us, n - 1), us[n - 1]);
    }
  }

  lemma {:induction false} CidrEvent(lib: NetLib, log: seq<Event>, i: nat, c: string, t: map<string, CIDRBlock>)
    requires i < |log| && IsCidrKey(log[i].key, c)
    requires CidrMirror(lib, t, ReadableAt(log, i))
    ensures CidrMirror(lib, Apply(t, CidrUpdate(lib, Delivered(log, i))), ReadableAt(log, i + 1))
  {
    CidrKeyRoundTrip(c);
    match log[i]
    case Put(k, v) =>
      if !v.Malformed? {
        CidrMirrorSet(lib, t, ReadableAt(log, i), c, StateAt(log, i + 1)[k]);
      }
    case Delete(k) =>
      CidrMirrorUnset(lib, t, ReadableAt(log, i), c);
  }

  lemma {:induction false} CidrOtherEvent(lib: NetLib, log: seq<Event>, i: nat, t: map<string, CIDRBlock>)
    requires i < |log| && forall c :: log[i].key != CidrToEtcdKey(c)
    requires CidrMirror(lib, t, ReadableAt(log, i))
    ensures CidrMirror(lib, t, ReadableAt(log, i + 1))
  {
    CidrMirrorOther(lib, t, ReadableAt(log, i), ReadableAt(log, i + 1));
  }

  lemma {:induction false} CidrStep(lib: NetLib, log: seq<Event>, i: nat, t: map<string, CIDRBlock>)
    requires i < |log| && ServiceKey(log[i].key)
    requires CidrMirror(lib, t, ReadableAt(log, i))
    ensures CidrMirror(lib, Apply(t, CidrUpdates(lib, log)[i]), ReadableAt(log, i + 1))
  {
    var k := log[i].key;
    if HasCidr(k) {
      var c :| IsCidrKey(k, c);
      CidrKeyPrefix(k);
      CidrEvent(lib, log, i, c, t);
    } else {
      NotCidrKey(k);
      CidrOtherEvent(lib, log, i, t);
      assert CidrUpdates(lib, log)[i] == Skip;
    }
  }

  lemma {:induction false} CidrFoldMirrors(lib: NetLib, log: seq<Event>, n: nat)
    requires ServiceLog(log) && n <= |log|
    ensures CidrMirror(lib, Fold(CidrUpdates(lib, log), n), ReadableAt(log, n))
  {
    if n == 0 {
      EmptyMirrors(lib, true);
    } else {
      CidrFoldMirrors(lib, log, n - 1);
      var us := CidrUpdates(lib, log);
      CidrStep(lib, log, n - 1, Fold(us, n - 1));
      assert Fold(us, n) == Apply(Fold(us, n - 1), us[n - 1]);
    }
  }

  lemma {:induction false} NotCidrKey(k: string)
    requires ServiceKey(k) && !HasCidr(k)
    ensures !HasPrefix(k, CIDR_PREFIX)
    ensures forall c :: k != CidrToEtcdKey(c)
  {
    PrefixFacts();
    if HasRbl(k) {
      var n: U32 :| IsRblKey(k, n);
      KeyPrefixes(V4(n), "");
    } else if HasRbl6(k) {
      var b: Bytes16 :| IsRbl6Key(k, b);
      KeyPrefixes(V6(b), "");
    }
    forall c ensures k != CidrToEtcdKey(c) {
      KeyPrefixes(V4(0), c);
    }
  }

  // ---- Loading a range ----------------------------------------------------

  ghost predicate RblRows(kvs: seq<RangeRow>) {
    forall i | 0 <= i < |kvs| :: HasRbl(kvs[i].key)
  }

  lemma {:induction false} LoadIpMirrors(kvs: seq<RangeRow>)
    requires RblRows(kvs)
    ensures IpMirror(true, LoadIp(kvs), ToMap(kvs))
  {
    if kvs != [] {
      var init, r := kvs[..|kvs| - 1], kvs[|kvs| - 1];
      assert RblRows(init) by {
        forall i | 0 <= i < |init| ensures HasRbl(init[i].key) {
          assert init[i] == kvs[i];
        }
      }
      LoadIpMirrors(init);
      var n: U32 :| IsRblKey(r.key, n);
      LastFourRbl4(n);
      IpMirrorSet(true, LoadIp(init), ToMap(init), n, r.val, EntryIn(Dotted(n), r.val));
    } else {
      forall ip ensures IpAt(true, map[], map[], ip) {
      }
    }
  }

  /** A range load of the live IPv4 keys rebuilds the image of the state, whatever the order of the rows. */
  lemma {:induction false} LoadIpOf(kvs: seq<RangeRow>, m: map<string, KV>)
    requires Enumerates(kvs, m, RBL_PREFIX_SCAN)
    requires forall k | k in m :: KnownKey(k)
    ensures IpMirror(true, LoadIp(kvs), m)
  {
    forall i | 0 <= i < |kvs| ensures HasRbl(kvs[i].key) {
      var k := kvs[i].key;
      assert kvs[i] in kvs && KnownKey(k);
      ScanKeys(k);
    }
    LoadIpMirrors(kvs);
    forall n: U32 ensures SameAt(ToMap(kvs), m, RblKey(V4(n))) {
      KeyPrefixes(V4(n), "");
      EnumeratesAt(kvs, m, RBL_PREFIX_SCAN, RblKey(V4(n)));
    }
    IpMirrorOther(true, LoadIp(kvs), ToMap(kvs), m);
  }

  lemma {:induction false} ScanKeys(k: string)
    requires KnownKey(k) && HasPrefix(k, RBL_PREFIX_SCAN)
    ensures HasRbl(k)
  {
    PrefixFacts();
    assert k[31] == RBL_PREFIX_SCAN[31] == '/';
    assert k[..31] == RBL_PREFIX_SCAN[..31] == RBL_PREFIX;
    forall c ensures !IsCidrKey(k, c) {
      assert CidrToEtcdKey(c)[31] == CIDR_PREFIX[31];
    }
  }

  lemma {:induction false} EnumeratesAt(kvs: seq<RangeRow>, m: map<string, KV>, prefix: string, k: string)
    requires Enumerates(kvs, m, prefix) && HasPrefix(k, prefix)
    ensures SameAt(ToMap(kvs), m, k)
  {
    MapGet(kvs, k);
    if k in ToMap(kvs) {
      assert kvs[Index(kvs, k)] in kvs;
    }
    if k in m {
      InMap(kvs, Row(k, m[k]));
    }
  }

  ghost predicate CidrRows(kvs: seq<RangeRow>) {
    forall i | 0 <= i < |kvs| :: HasCidr(kvs[i].key)
  }

  lemma {:induction false} DecodableSet(m: map<string, KV>, k: string, kv: KV)
    requires k !in m
    ensures Decodable(m[k := kv]) == if kv.value.Malformed? then Decodable(m) else Decodable(m)[k := kv]
  {
  }

  lemma {:induction false} LoadCidrRow(lib: NetLib, t: map<string, CIDRBlock>, m: map<string, KV>, r: RangeRow)
    requires CidrMirror(lib, t, Decodable(m)) && r.key !in m && HasCidr(r.key)
    ensures CidrMirror(lib, Apply(t, LoadCidrUpdate(lib, r)), Decodable(m[r.key := r.val]))
  {
    DecodableSet(m, r.key, r.val);
    var c :| IsCidrKey(r.key, c);
    CidrKeyRoundTrip(c);
    if !r.val.value.Malformed? {
      CidrMirrorSet(lib, t, Decodable(m), c, r.val);
    }
  }

  lemma {:induction false} LoadCidrMirrors(lib: NetLib, kvs: seq<RangeRow>)
    requires CidrRows(kvs) && Distinct(kvs)
    ensures CidrMirror(lib, LoadCidr(lib, kvs), Decodable(ToMap(kvs)))
  {
    if kvs != [] {
      var init, r := kvs[..|kvs| - 1], kvs[|kvs| - 1];
      assert CidrRows(init) by {
        forall i | 0 <= i < |init| ensures HasCidr(init[i].key) {
          assert init[i] == kvs[i];
        }
      }
      LoadCidrMirrors(lib, init);
      MapGet(init, r.key);
      LoadCidrRow(lib, LoadCidr(lib, init), ToMap(init), r);
    } else {
      forall c ensures CidrAt(lib, map[], map[], c) {
      }
    }
  }

  /** A range load of the live CIDR keys keeps those whose value decodes, whatever the order of the rows. */
  lemma {:induction false} LoadCidrOf(lib: NetLib, kvs: seq<RangeRow>, m: map<string, KV>)
    requires Enumerates(kvs, m, CIDR_PREFIX_SCAN)
    requires forall k | k in m :: ServiceKey(k)
    ensures CidrMirror(lib, LoadCidr(lib, kvs), Decodable(m))
  {
    forall i | 0 <= i < |kvs| ensures HasCidr(kvs[i].key) {
      var k := kvs[i].key;
      assert kvs[i] in kvs && ServiceKey(k);
      if !HasCidr(k) {
        NotCidrKey(k);
      }
    }
    LoadCidrMirrors(lib, kvs);
    forall c ensures SameAt(Decodable(ToMap(kvs)), Decodable(m), CidrToEtcdKey(c)) {
      KeyPrefixes(V4(0), c);
      EnumeratesAt(kvs, m, CIDR_PREFIX_SCAN, CidrToEtcdKey(c));
    }
    CidrMirrorOther(lib, LoadCidr(lib, kvs), Decodable(ToMap(kvs)), Decodable(m));
  }

  // ---- Loading against folding --------------------------------------------

  /** Decodable keys read the same live and followed; over an undecodable value a follower is behind. */
  lemma {:induction false} ReadableIsState(log: seq<Event>, n: nat, k: string)
    requires n <= |log|
    ensures var r, m := ReadableAt(log, n), StateAt(log, n);
            && (k in m ==> m[k].modRevision <= RevisionAt(n))
            && (k in r ==> k in m && !r[k].value.Malformed?)
            && (k in m && !m[k].value.Malformed? ==> k in r && r[k] == m[k])
            && (k in r && m[k].value.Malformed? ==> r[k].modRevision < m[k].modRevision)
  {
    if n > 0 {
      ReadableIsState(log, n - 1, k);
    }
  }

  lemma {:induction false} KnownState(log: seq<Event>, n: nat, known: string -> bool)
    requires n <= |log| && forall i | 0 <= i < |log| :: known(log[i].key)
    ensures forall k | k in StateAt(log, n) :: known(k)
  {
    if n > 0 {
      KnownState(log, n - 1, known);
      assert known(log[n - 1].key);
    }
  }

  /** No IPv4 key holds an undecodable value. */
  ghost predicate IpDecodes(m: map<string, KV>) {
    forall a: U32 | RblKey(V4(a)) in m :: !m[RblKey(V4(a))].value.Malformed?
  }

  /** Without IPv6 keys, loading at a revision gives the fold up to it exactly if every IPv4 key holds a decodable value. */
  lemma {:induction false} IpLoadIsFold(lib: NetLib, log: seq<Event>, n: nat, kvs: seq<RangeRow>)
    requires Lawful(lib) && KnownLog(log) && n <= |log|
    requires Enumerates(kvs, StateAt(log, n), RBL_PREFIX_SCAN)
    ensures LoadIp(kvs) == Fold(IpUpdates(lib, log), n) <==> IpDecodes(StateAt(log, n))
  {
    var m := StateAt(log, n);
    var known := (k: string) => KnownKey(k);
    KnownState(log, n, known);
    assert forall k | k in m :: known(k);
    LoadIpOf(kvs, m);
    IpFoldMirrors(lib, log, n);
    IpImagesIff(LoadIp(kvs), Fold(IpUpdates(lib, log), n), log, n);
  }

  lemma {:induction false} IpImagesIff(t: map<string, BlockEntry>, t': map<string, BlockEntry>, log: seq<Event>, n: nat)
    requires n <= |log| && IpMirror(true, t, StateAt(log, n)) && IpMirror(true, t', ReadableAt(log, n))
    ensures t == t' <==> IpDecodes(StateAt(log, n))
  {
    var m, r := StateAt(log, n), ReadableAt(log, n);
    if IpDecodes(m) {
      forall a: U32 ensures SameAt(r, m, RblKey(V4(a))) {
        ReadableIsState(log, n, RblKey(V4(a)));
      }
      IpMirrorOther(true, t', r, m);
      IpMirrorUnique(t, t', m);
    } else {
      var a: U32 :| RblKey(V4(a)) in m && m[RblKey(V4(a))].value.Malformed?;
      DottedIsQuad(a);
      KeyForInjective(Dotted(a), a);
      ReadableIsState(log, n, RblKey(V4(a)));
      assert IpAt(true, t, m, Dotted(a)) && IpAt(true, t', r, Dotted(a));
    }
  }

  /** A network whose live value does not decode, though one written under it since its last deletion did. */
  ghost predicate LeftBehind(lib: NetLib, log: seq<Event>, n: nat, c: string)
    requires n <= |log|
  {
    var k := CidrToEtcdKey(c);
    && '_' !in c && c != "" && lib.parseCIDR(c).Some?
    && k in StateAt(log, n) && StateAt(log, n)[k].value.Malformed? && k in ReadableAt(log, n)
  }

  ghost predicate NoneLeftBehind(lib: NetLib, log: seq<Event>, n: nat)
    requires n <= |log|
  {
    forall c :: !LeftBehind(lib, log, n, c)
  }

  /** For networks the two differ exactly on a decodable record overwritten by an undecodable one. */
  lemma {:induction false} CidrLoadIsFold(lib: NetLib, log: seq<Event>, n: nat, kvs: seq<RangeRow>)
    requires ServiceLog(log) && n <= |log|
    requires Enumerates(kvs, StateAt(log, n), CIDR_PREFIX_SCAN)
    ensures LoadCidr(lib, kvs) == Fold(CidrUpdates(lib, log), n) <==> NoneLeftBehind(lib, log, n)
  {
    var known := (k: string) => ServiceKey(k);
    KnownState(log, n, known);
    assert forall k | k in StateAt(log, n) :: known(k);
    LoadCidrOf(lib, kvs, StateAt(log, n));
    CidrFoldMirrors(lib, log, n);
    CidrImagesIff(lib, LoadCidr(lib, kvs), Fold(CidrUpdates(lib, log), n), log, n);
  }

  lemma {:induction false} CidrImagesIff(
    lib: NetLib, t: map<string, CIDRBlock>, t': map<string, CIDRBlock>, log: seq<Event>, n: nat)
    requires n <= |log|
    requires CidrMirror(lib, t, Decodable(StateAt(log, n))) && CidrMirror(lib, t', ReadableAt(log, n))
    ensures t == t' <==> NoneLeftBehind(lib, log, n)
  {
    var m, r := Decodable(StateAt(log, n)), ReadableAt(log, n);
    if NoneLeftBehind(lib, log, n) {
      forall c ensures CidrAt(lib, t', m, c) {
        ReadableIsState(log, n, CidrToEtcdKey(c));
        assert CidrAt(lib, t', r, c) && !LeftBehind(lib, log, n, c);
      }
      CidrMirrorUnique(lib, t, t', m);
    } else {
      var c :| LeftBehind(lib, log, n, c);
      assert CidrAt(lib, t, m, c) && CidrAt(lib, t', r, c);
    }
  }

  /** For every IPv4 address: an undecodable value loads as an empty record and is nothing to a watcher. */
  lemma {:induction false} UndecodableAddress(lib: NetLib, n: U32)
    requires Lawful(lib)
    ensures var k := RblKey(V4(n));
            var log := [Put(k, Malformed)];
            var kvs := [Row(k, KV(Malformed, 2, 2))];
            && KnownLog(log) && Enumerates(kvs, StateAt(log, 1), RBL_PREFIX_SCAN)
            && Dotted(n) in LoadIp(kvs) && Dotted(n) !in Fold(IpUpdates(lib, log), 1)
  {
    var k := RblKey(V4(n));
    var log := [Put(k, Malformed)];
    assert IsRblKey(k, n);
    KeyPrefixes(V4(n), "");
    OneRowState(k, Malformed);
    LastFourRbl4(n);
    assert IpUpdates(lib, log)[0] == Skip;
    assert Fold(IpUpdates(lib, log), 0) == map[];
  }

  lemma {:induction false} OneRowState(k: string, v: Value)
    ensures StateAt([Put(k, v)], 1) == map[k := KV(v, 2, 2)]
  {
    assert StateAt([Put(k, v)], 0) == map[];
  }

  /** For every network: an undecodable value after a decodable one takes it from the load and not from a watcher. */
  lemma {:induction false} UndecodableNetwork(lib: NetLib, c: string)
    requires '_' !in c && c != "" && lib.parseCIDR(c).Some?
    ensures var k := CidrToEtcdKey(c);
            var log := [Put(k, Block(ZERO_RECORD)), Put(k, Malformed)];
            var kvs := [Row(k, KV(Malformed, 2, 3))];
            && KnownLog(log) && Enumerates(kvs, StateAt(log, 2), CIDR_PREFIX_SCAN)
            && c !in LoadCidr(lib, kvs) && c in Fold(CidrUpdates(lib, log), 2)
  {
    var k := CidrToEtcdKey(c);
    var log := [Put(k, Block(ZERO_RECORD)), Put(k, Malformed)];
    assert IsCidrKey(k, c);
    KeyPrefixes(V4(0), c);
    CidrKeyRoundTrip(c);
    assert StateAt(log, 0) == map[];
    assert StateAt(log, 1) == map[k := KV(Block(ZERO_RECORD), 2, 2)];
    assert StateAt(log, 2) == map[k := KV(Malformed, 2, 3)];
    var us := CidrUpdates(lib, log);
    assert us[0].Set? && us[0].key == c && us[1] == Skip;
    assert Fold(us, 1) == Apply(Fold(us, 0), us[0]) && Fold(us, 2) == Fold(us, 1);
  }
}
