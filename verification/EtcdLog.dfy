/** etcd as an append-only log of events, what a watch delivers of it, and what a range read returns. */
module EtcdLog {
  import opened Text
  import opened IPv4Text
  import opened Keys
  import opened SliceMap
  import opened Records
  import opened Replay

  datatype Event = Put(key: string, value: Value) | Delete(key: string)

  datatype KV = KV(value: Value, createRevision: int, modRevision: int)

  /** The store revision after `n` events; an empty etcd is at revision 1. */
  function RevisionAt(n: nat): int {
    n + 1
  }

  /** The key-value state after the first `n` events. */
  function StateAt(log: seq<Event>, n: nat): map<string, KV>
    requires n <= |log|
  {
    if n == 0 then map[]
    else
      var m, rev := StateAt(log, n - 1), RevisionAt(n);
      match log[n - 1]
      case Put(k, v) => m[k := KV(v, if k in m then m[k].createRevision else rev, rev)]
      case Delete(k) => m - {k}
  }

  /** The state as a follower has it that passes over undecodable values: each key keeps its last decodable one. */
  function ReadableAt(log: seq<Event>, n: nat): map<string, KV>
    requires n <= |log|
  {
    if n == 0 then map[]
    else
      var m := ReadableAt(log, n - 1);
      match log[n - 1]
      case Put(k, v) => if v.Malformed? then m else m[k := StateAt(log, n)[k]]
      case Delete(k) => m - {k}
  }

  /** The keys whose present value decodes. */
  function Decodable(m: map<string, KV>): map<string, KV> {
    map k | k in m && !m[k].value.Malformed? :: m[k]
  }

  datatype WatchEvent = WatchPut(key: string, kv: KV) | WatchDelete(key: string)

  /** The event a watch delivers for log position `i`. */
  function Delivered(log: seq<Event>, i: nat): WatchEvent
    requires i < |log|
  {
    match log[i]
    case Put(k, v) => WatchPut(k, StateAt(log, i + 1)[k])
    case Delete(k) => WatchDelete(k)
  }

  // ---- What the watchers do with an event ---------------------------------

  function IpUpdate(lib: NetLib, ev: WatchEvent): Update<string, BlockEntry> {
    var ip := IpFromKey(lib, ev.key);
    if ip == "" then Skip
    else match ev
      case WatchDelete(_) => Unset(ip)
      case WatchPut(_, kv) =>
        match Decode(kv.value)
        case None => Skip
        case Some(rec) => Set(ip, EntryOf(ip, rec, kv.createRevision, kv.modRevision))
  }

  function CidrUpdate(lib: NetLib, ev: WatchEvent): Update<string, CIDRBlock> {
    var cidr := CidrFromEtcdKey(ev.key);
    if cidr == "" then Skip
    else match ev
      case WatchDelete(_) => Unset(cidr)
      case WatchPut(_, kv) =>
        match (Decode(kv.value), lib.parseCIDR(cidr))
        case (Some(rec), Some(net)) => Set(cidr, CIDREntryOf(cidr, net, rec).val)
        case _ => Skip
  }

  /** The log as the IP watcher sees it: positions outside its range are no updates. */
  function IpUpdates(lib: NetLib, log: seq<Event>): (us: seq<Update<string, BlockEntry>>)
    ensures |us| == |log|
  {
    seq(|log|, i requires 0 <= i < |log| =>
      if HasPrefix(log[i].key, RBL_PREFIX) then IpUpdate(lib, Delivered(log, i)) else Skip)
  }

  function CidrUpdates(lib: NetLib, log: seq<Event>): (us: seq<Update<string, CIDRBlock>>)
    ensures |us| == |log|
  {
    seq(|log|, i requires 0 <= i < |log| =>
      if HasPrefix(log[i].key, CIDR_PREFIX) then CidrUpdate(lib, Delivered(log, i)) else Skip)
  }

  /** The log position that an entry's revision stands for. */
  function WrittenFrom(e: BlockEntry): int {
    e.modRevision - 2
  }

  /** Loaded and watched entries carry the revision of the event that wrote them. */
  lemma {:induction false} IpUpdatesStamped(lib: NetLib, log: seq<Event>)
    ensures Stamped(IpUpdates(lib, log), WrittenFrom)
  {
  }

  // ---- Range reads --------------------------------------------------------

  type RangeRow = Row<string, KV>

  /** A range read returns, in some order, the live keys under a prefix. */
  ghost predicate Enumerates(kvs: seq<RangeRow>, m: map<string, KV>, prefix: string) {
    && Distinct(kvs)
    && (forall r | r in kvs :: r.key in m && m[r.key] == r.val && HasPrefix(r.key, prefix))
    && (forall k | k in m && HasPrefix(k, prefix) :: Row(k, m[k]) in kvs)
  }

  /** `loadFromEtcd` on one row: an undecodable value loads as an empty record, and no address is checked. */
  function LoadIpUpdate(r: RangeRow): Update<string, BlockEntry> {
    match LastFour(r.key)
    case None => Skip
    case Some(ip) =>
      var rec := Decode(r.val.value);
      Set(ip, EntryOf(ip, if rec.Some? then rec.value else ZERO_RECORD,
                      r.val.createRevision, r.val.modRevision))
  }

  function LoadCidrUpdate(lib: NetLib, r: RangeRow): Update<string, CIDRBlock> {
    CidrUpdate(lib, WatchPut(r.key, r.val))
  }

  function LoadIp(kvs: seq<RangeRow>): map<string, BlockEntry> {
    if kvs == [] then map[]
    else Apply(LoadIp(kvs[..|kvs| - 1]), LoadIpUpdate(kvs[|kvs| - 1]))
  }

  function LoadCidr(lib: NetLib, kvs: seq<RangeRow>): map<string, CIDRBlock> {
    if kvs == [] then map[]
    else Apply(LoadCidr(lib, kvs[..|kvs| - 1]), LoadCidrUpdate(lib, kvs[|kvs| - 1]))
  }

  // ---- The network table as a slice ---------------------------------------

  function ApplySlice(s: seq<CIDREntry>, u: Update<string, CIDRBlock>): seq<CIDREntry> {
    match u
    case Set(k, v) => Upserted(s, Row(k, v))
    case Unset(k) => Removed(s, k)
    case Skip => s
  }

  lemma {:induction false} ApplySliceMap(s: seq<CIDREntry>, u: Update<string, CIDRBlock>)
    requires Distinct(s)
    ensures Distinct(ApplySlice(s, u)) && ToMap(ApplySlice(s, u)) == Apply(ToMap(s), u)
  {
    match u
    case Set(k, v) => UpsertMap(s, Row(k, v));
    case Unset(k) => RemoveMap(s, k);
    case Skip =>
  }

  function LoadSlice(lib: NetLib, kvs: seq<RangeRow>): seq<CIDREntry> {
    if kvs == [] then []
    else ApplySlice(LoadSlice(lib, kvs[..|kvs| - 1]), LoadCidrUpdate(lib, kvs[|kvs| - 1]))
  }

  lemma {:induction false} LoadSliceMap(lib: NetLib, kvs: seq<RangeRow>)
    ensures Distinct(LoadSlice(lib, kvs)) && ToMap(LoadSlice(lib, kvs)) == LoadCidr(lib, kvs)
  {
    if kvs != [] {
      LoadSliceMap(lib, kvs[..|kvs| - 1]);
      ApplySliceMap(LoadSlice(lib, kvs[..|kvs| - 1]), LoadCidrUpdate(lib, kvs[|kvs| - 1]));
    }
  }

  // ---- Logs the service writes --------------------------------------------

  ghost predicate IsRblKey(k: string, n: U32) {
    k == RblKey(V4(n))
  }

  ghost predicate IsCidrKey(k: string, c: string) {
    '_' !in c && c != "" && k == CidrToEtcdKey(c)
  }

  ghost predicate HasRbl(k: string) {
    exists n: U32 :: IsRblKey(k, n)
  }

  ghost predicate HasCidr(k: string) {
    exists c :: IsCidrKey(k, c)
  }

  ghost predicate IsRbl6Key(k: string, b: Bytes16) {
    k == RblKey(V6(b))
  }

  ghost predicate HasRbl6(k: string) {
    exists b: Bytes16 :: IsRbl6Key(k, b)
  }

  /** Under the watched prefixes the service keeps address keys and CIDR keys. */
  ghost predicate ServiceKey(k: string) {
    HasPrefix(k, RBL_PREFIX) ==> HasRbl(k) || HasRbl6(k) || HasCidr(k)
  }

  ghost predicate ServiceLog(log: seq<Event>) {
    forall i | 0 <= i < |log| :: ServiceKey(log[i].key)
  }

  /** The same while no IPv6 address is blocked. */
  ghost predicate KnownKey(k: string) {
    HasPrefix(k, RBL_PREFIX) ==> HasRbl(k) || HasCidr(k)
  }

  ghost predicate KnownLog(log: seq<Event>) {
    forall i | 0 <= i < |log| :: KnownKey(log[i].key)
  }
}
