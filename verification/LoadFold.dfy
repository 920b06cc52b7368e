/** When loading a range at a revision gives what following the log up to it gives, IPv6 keys included. */
module LoadFold {
  import opened Text
  import opened IPv4Text
  import opened Keys
  import opened SliceMap
  import opened Records
  import opened Replay
  import opened EtcdLog
  import opened Mirror

  /** No later row is loaded under the same text. */
  ghost predicate Wins(kvs: seq<RangeRow>, i: nat) {
    && i < |kvs| && LastFour(kvs[i].key).Some?
    && forall j | i < j < |kvs| :: LastFour(kvs[j].key) != LastFour(kvs[i].key)
  }

  /** The row was written by an event that reads as an address, the last to touch that address. */
  ghost predicate CurrentRow(us: seq<Update<string, BlockEntry>>, r: RangeRow, n: nat) {
    r.val.modRevision >= 2 && LastTouch(us, r.val.modRevision - 2, n)
  }

  /** Each row that wins its text is current. */
  ghost predicate Current(us: seq<Update<string, BlockEntry>>, kvs: seq<RangeRow>, n: nat) {
    forall i: nat | Wins(kvs, i) :: CurrentRow(us, kvs[i], n)
  }

  // ---- What a load holds --------------------------------------------------

  lemma {:induction false} Winner(kvs: seq<RangeRow>, x: string) returns (i: nat)
    requires x in LoadIp(kvs)
    ensures Wins(kvs, i) && LastFour(kvs[i].key) == Some(x) && LoadIp(kvs)[x] == EntryIn(x, kvs[i].val)
  {
    var init, r := kvs[..|kvs| - 1], kvs[|kvs| - 1];
    if LastFour(r.key) == Some(x) {
      i := |kvs| - 1;
    } else {
      i := Winner(init, x);
      assert forall j | i < j < |init| :: kvs[j] == init[j];
    }
  }

  lemma {:induction false} RowLoads(kvs: seq<RangeRow>, i: nat)
    requires i < |kvs| && LastFour(kvs[i].key).Some?
    ensures LastFour(kvs[i].key).value in LoadIp(kvs)
    ensures Wins(kvs, i) ==> LoadIp(kvs)[LastFour(kvs[i].key).value] == EntryIn(LastFour(kvs[i].key).value, kvs[i].val)
  {
    var init := kvs[..|kvs| - 1];
    if i < |init| {
      RowLoads(init, i);
      assert Wins(kvs, i) ==> Wins(init, i) by {
        assert forall j | i < j < |init| :: kvs[j] == init[j];
      }
    }
  }

  // ---- Which event wrote a row --------------------------------------------

  lemma {:induction false} Written(log: seq<Event>, n: nat, k: string)
    requires n <= |log| && k in StateAt(log, n)
    ensures var kv := StateAt(log, n)[k];
            && 2 <= kv.modRevision <= n + 1 && log[kv.modRevision - 2] == Put(k, kv.value)
            && k in StateAt(log, kv.modRevision - 1) && StateAt(log, kv.modRevision - 1)[k] == kv
  {
    if log[n - 1].key != k {
      Written(log, n - 1, k);
    }
  }

  lemma {:induction false} StaysLive(log: seq<Event>, e: nat, n: nat, k: string)
    requires e < n <= |log| && log[e].Put? && log[e].key == k
    requires forall j | e < j < n :: log[j] != Delete(k)
    ensures k in StateAt(log, n)
  {
    if e < n - 1 {
      StaysLive(log, e, n - 1, k);
      assert log[n - 1] != Delete(k);
    }
  }

  /** The update at a row's revision is the row's own entry, or none if the row does not decode to an address. */
  ghost predicate WrittenAt(us: seq<Update<string, BlockEntry>>, r: RangeRow, n: nat) {
    0 <= r.val.modRevision - 2 < n <= |us| && Writes(us[r.val.modRevision - 2], r)
  }

  /** No update, or the row's own entry under its text. */
  ghost predicate Writes(u: Update<string, BlockEntry>, r: RangeRow) {
    var x := LastFour(r.key);
    u == Skip || (x.Some? && u == Set(x.value, EntryIn(x.value, r.val)))
  }

  lemma {:induction false} PutUpdate(lib: NetLib, k: string, kv: KV)
    ensures Writes(IpUpdate(lib, WatchPut(k, kv)), Row(k, kv))
  {
  }

  lemma {:induction false} UpdateAt(lib: NetLib, log: seq<Event>, e: nat)
    requires e < |log|
    ensures IpUpdates(lib, log)[e] == Skip || IpUpdates(lib, log)[e] == IpUpdate(lib, Delivered(log, e))
  {
  }

  lemma {:induction false} DeliveredPut(log: seq<Event>, e: nat, k: string, kv: KV)
    requires e < |log| && log[e] == Put(k, kv.value) && k in StateAt(log, e + 1) && StateAt(log, e + 1)[k] == kv
    ensures Delivered(log, e) == WatchPut(k, kv)
  {
  }

  lemma {:induction false} RowUpdate(lib: NetLib, log: seq<Event>, e: nat, k: string, kv: KV)
    requires e < |log| && Delivered(log, e) == WatchPut(k, kv)
    ensures Writes(IpUpdates(lib, log)[e], Row(k, kv))
  {
    UpdateAt(lib, log, e);
    PutUpdate(lib, k, kv);
  }

  lemma {:induction false} WrittenUpdate(lib: NetLib, log: seq<Event>, n: nat, k: string)
    requires n <= |log| && k in StateAt(log, n)
    ensures WrittenAt(IpUpdates(lib, log), Row(k, StateAt(log, n)[k]), n)
  {
    var kv := StateAt(log, n)[k];
    Written(log, n, k);
    DeliveredPut(log, kv.modRevision - 2, k, kv);
    RowUpdate(lib, log, kv.modRevision - 2, k, kv);
  }

  /** Keys that a watcher takes for an address are in the range that a load reads. */
  ghost predicate Scanned(lib: NetLib, log: seq<Event>) {
    forall i | 0 <= i < |log| && HasPrefix(log[i].key, RBL_PREFIX) && IpFromKey(lib, log[i].key) != "" ::
      HasPrefix(log[i].key, RBL_PREFIX_SCAN)
  }

  lemma {:induction false} ServiceScanned(lib: NetLib, log: seq<Event>)
    requires Lawful(lib) && ServiceLog(log)
    ensures Scanned(lib, log)
  {
    forall i | 0 <= i < |log| && HasPrefix(log[i].key, RBL_PREFIX) && IpFromKey(lib, log[i].key) != ""
      ensures HasPrefix(log[i].key, RBL_PREFIX_SCAN)
    {
      ServiceKeyScanned(lib, log[i].key);
    }
  }

  lemma {:induction false} ServiceKeyScanned(lib: NetLib, k: string)
    requires Lawful(lib) && ServiceKey(k) && HasPrefix(k, RBL_PREFIX) && IpFromKey(lib, k) != ""
    ensures HasPrefix(k, RBL_PREFIX_SCAN)
  {
    if HasRbl(k) {
      var n: U32 :| IsRblKey(k, n);
      KeyPrefixes(V4(n), "");
    } else if HasRbl6(k) {
      var b: Bytes16 :| IsRbl6Key(k, b);
      KeyPrefixes(V6(b), "");
    } else {
      var c :| IsCidrKey(k, c);
      CidrKeyIsNoIp(lib, c);
    }
  }

  lemma {:induction false} SetBy(lib: NetLib, log: seq<Event>, e: nat, n: nat, x: string)
    requires e < n <= |log| && IpUpdates(lib, log)[e].Set? && IpUpdates(lib, log)[e].key == x
    requires LastTouch(IpUpdates(lib, log), e, n)
    ensures var k := log[e].key;
            log[e].Put? && HasPrefix(k, RBL_PREFIX) && IpFromKey(lib, k) == x != "" && k in StateAt(log, n)
  {
    var k := log[e].key;
    forall j | e < j < n ensures log[j] != Delete(k) {
      assert !Touches(IpUpdates(lib, log)[j], x);
    }
    StaysLive(log, e, n, k);
  }

  lemma {:induction false} LiveIsLoaded(kvs: seq<RangeRow>, m: map<string, KV>, k: string)
    requires Enumerates(kvs, m, RBL_PREFIX_SCAN) && k in m && HasPrefix(k, RBL_PREFIX_SCAN) && LastFour(k).Some?
    ensures LastFour(k).value in LoadIp(kvs)
  {
    var i :| 0 <= i < |kvs| && kvs[i] == Row(k, m[k]);
    RowLoads(kvs, i);
  }

  /** A folded entry carries the revision of the last event that touched its address. */
  lemma {:induction false} LastWriter(lib: NetLib, log: seq<Event>, n: nat, x: string) returns (e: nat)
    requires n <= |log| && x in Fold(IpUpdates(lib, log), n)
    ensures var us := IpUpdates(lib, log);
            && e == Fold(us, n)[x].modRevision - 2
            && e < n && us[e].Set? && us[e].key == x && LastTouch(us, e, n)
  {
    IpUpdatesStamped(lib, log);
    FoldedBy(IpUpdates(lib, log), WrittenFrom, n, x);
    e := WrittenFrom(Fold(IpUpdates(lib, log), n)[x]);
  }

  /** An address that the fold holds has a live key in the load's range. */
  lemma {:induction false} LiveKey(lib: NetLib, log: seq<Event>, n: nat, x: string) returns (k: string)
    requires n <= |log| && Scanned(lib, log) && x in Fold(IpUpdates(lib, log), n)
    ensures k in StateAt(log, n) && HasPrefix(k, RBL_PREFIX_SCAN) && LastFour(k) == Some(x)
  {
    var e := LastWriter(lib, log, n, x);
    SetBy(lib, log, e, n, x);
    k := log[e].key;
  }

  lemma {:induction false} FoldedIsLoaded(lib: NetLib, log: seq<Event>, n: nat, kvs: seq<RangeRow>, x: string)
    requires n <= |log| && Scanned(lib, log) && Enumerates(kvs, StateAt(log, n), RBL_PREFIX_SCAN)
    requires x in Fold(IpUpdates(lib, log), n)
    ensures x in LoadIp(kvs)
  {
    var k := LiveKey(lib, log, n, x);
    LiveIsLoaded(kvs, StateAt(log, n), k);
  }

  lemma {:induction false} LoadedIsFolded(us: seq<Update<string, BlockEntry>>, n: nat, kvs: seq<RangeRow>, x: string)
    requires n <= |us| && forall r | r in kvs :: WrittenAt(us, r, n)
    requires x in LoadIp(kvs) && Current(us, kvs, n)
    ensures x in Fold(us, n) && Fold(us, n)[x] == LoadIp(kvs)[x]
  {
    var i := Winner(kvs, x);
    assert kvs[i] in kvs;
    RowFolded(us, n, kvs[i], x);
  }

  lemma {:induction false} RowFolded(us: seq<Update<string, BlockEntry>>, n: nat, r: RangeRow, x: string)
    requires WrittenAt(us, r, n) && CurrentRow(us, r, n) && LastFour(r.key) == Some(x)
    ensures x in Fold(us, n) && Fold(us, n)[x] == EntryIn(x, r.val)
  {
    FoldHoldsLast(us, r.val.modRevision - 2, n);
  }

  lemma {:induction false} SameIsCurrent(lib: NetLib, log: seq<Event>, n: nat, kvs: seq<RangeRow>, i: nat)
    requires n <= |log| && Wins(kvs, i) && LoadIp(kvs) == Fold(IpUpdates(lib, log), n)
    ensures CurrentRow(IpUpdates(lib, log), kvs[i], n)
  {
    RowLoads(kvs, i);
    var _ := LastWriter(lib, log, n, LastFour(kvs[i].key).value);
  }

  /** Loading at a revision gives the fold of the log up to it exactly if every row that wins its text is current. */
  lemma {:induction false} LoadIsFoldIff(lib: NetLib, log: seq<Event>, n: nat, kvs: seq<RangeRow>)
    requires Lawful(lib) && ServiceLog(log) && n <= |log|
    requires Enumerates(kvs, StateAt(log, n), RBL_PREFIX_SCAN)
    ensures LoadIp(kvs) == Fold(IpUpdates(lib, log), n) <==> Current(IpUpdates(lib, log), kvs, n)
  {
    var t, f := LoadIp(kvs), Fold(IpUpdates(lib, log), n);
    ServiceScanned(lib, log);
    forall r | r in kvs ensures WrittenAt(IpUpdates(lib, log), r, n) {
      WrittenUpdate(lib, log, n, r.key);
    }
    if Current(IpUpdates(lib, log), kvs, n) {
      forall x | x in t ensures x in f && t[x] == f[x] {
        LoadedIsFolded(IpUpdates(lib, log), n, kvs, x);
      }
      forall x | x in f ensures x in t {
        FoldedIsLoaded(lib, log, n, kvs, x);
      }
      assert t == f;
    } else if t == f {
      forall i: nat | Wins(kvs, i)
        ensures CurrentRow(IpUpdates(lib, log), kvs[i], n)
      {
        SameIsCurrent(lib, log, n, kvs, i);
      }
    }
  }

  lemma {:induction false} KnownIsService(log: seq<Event>)
    requires KnownLog(log)
    ensures ServiceLog(log)
  {
    forall i | 0 <= i < |log| ensures ServiceKey(log[i].key) {
      assert KnownKey(log[i].key);
    }
  }

  /** Without IPv6 keys that is: every IPv4 key holds a decodable value. */
  lemma {:induction false} CurrentIffDecodes(lib: NetLib, log: seq<Event>, n: nat, kvs: seq<RangeRow>)
    requires Lawful(lib) && KnownLog(log) && n <= |log|
    requires Enumerates(kvs, StateAt(log, n), RBL_PREFIX_SCAN)
    ensures Current(IpUpdates(lib, log), kvs, n) <==> IpDecodes(StateAt(log, n))
  {
    KnownIsService(log);
    LoadIsFoldIff(lib, log, n, kvs);
    IpLoadIsFold(lib, log, n, kvs);
  }

  // ---- An IPv6 key that reads as an IPv4 address --------------------------

  /** Block an IPv4 address, then an IPv6 one whose last nibbles spell it, then lift the second. */
  function AliasLog(b: Bytes16, v: Value): seq<Event> {
    [Put(RblKey(V4(TailAddress(b))), v), Put(RblKey(V6(b)), v), Delete(RblKey(V6(b)))]
  }

  lemma {:induction false} UpdateOf(lib: NetLib, log: seq<Event>, i: nat, x: string)
    requires i < |log| && HasPrefix(log[i].key, RBL_PREFIX) && IpFromKey(lib, log[i].key) == x != ""
    requires log[i].Put? ==> !log[i].value.Malformed?
    ensures var u := IpUpdates(lib, log)[i];
            !u.Skip? && u.key == x && (u.Set? <==> log[i].Put?)
  {
  }

  lemma {:induction false} SetThenUnset<K, V>(us: seq<Update<K, V>>, x: K)
    requires |us| == 3 && us[1].Set? && us[1].key == x && us[2] == Unset(x)
    ensures x in Fold(us, 2) && x !in Fold(us, 3)
  {
    assert Fold(us, 2) == Apply(Fold(us, 1), us[1]) && Fold(us, 3) == Apply(Fold(us, 2), us[2]);
  }

  lemma {:induction false} AliasLive(b: Bytes16, v: Value)
    ensures ServiceLog(AliasLog(b, v)) && RblKey(V4(TailAddress(b))) in StateAt(AliasLog(b, v), 3)
  {
    var n := TailAddress(b);
    assert IsRblKey(RblKey(V4(n)), n) && IsRbl6Key(RblKey(V6(b)), b);
    AddressKeysInjective(V4(n), V6(b));
    StaysLive(AliasLog(b, v), 0, 3, RblKey(V4(n)));
  }

  /** The watchers then have neither, though etcd holds the first. */
  lemma {:induction false} AliasDeletes(lib: NetLib, b: Bytes16, v: Value)
    requires Lawful(lib) && DecimalTail(b) && !v.Malformed?
    ensures var log, x := AliasLog(b, v), Dotted(TailAddress(b));
            && ServiceLog(log) && RblKey(V4(TailAddress(b))) in StateAt(log, 3)
            && x in Fold(IpUpdates(lib, log), 2) && x !in Fold(IpUpdates(lib, log), 3)
  {
    var x, log := Dotted(TailAddress(b)), AliasLog(b, v);
    AliasLive(b, v);
    WatchedKey6(lib, b);
    KeyPrefixes(V6(b), "");
    DottedNotEmpty(TailAddress(b));
    UpdateOf(lib, log, 1, x);
    UpdateOf(lib, log, 2, x);
    SetThenUnset(IpUpdates(lib, log), x);
  }
}
