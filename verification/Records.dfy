/** The records kept in etcd and the entries kept in memory. */
module Records {
  import opened Text
  import opened IPv4Text
  import opened Keys
  import opened SliceMap

  /** The etcd persistence format of a blocked address or network. */
  datatype BlockRecord = BlockRecord(
    version: int, ttl: int, host: string, source: string, scenario: string, action: string,
    firstSeen: int, lastSeen: int, expiration: int)

  const ZERO_RECORD := BlockRecord(0, 0, "", "", "", "", 0, 0, 0)

  /** A stored value: a block record, a pointer record, or bytes that are no JSON object. */
  datatype Value = Block(rec: BlockRecord) | Ptr(host: string, ttl: int) | Malformed

  datatype BlockEntry = BlockEntry(
    ip: string, source: string, scenario: string, action: string,
    createRevision: int, modRevision: int,
    firstSeen: int, lastSeen: int, expiration: int, returnCode: U32)

  /** What the CIDR table keeps beside the canonical CIDR string. */
  datatype CIDRBlock = CIDRBlock(
    net: Network, source: string, scenario: string, action: string,
    returnCode: U32, firstSeen: int, lastSeen: int, expiration: int)

  type CIDREntry = Row<string, CIDRBlock>

  predicate Expired(expiration: int, now: int) {
    expiration > 0 && expiration <= now
  }

  /** `json.Unmarshal` of a stored value into a block record; a pointer record shares two field names. */
  function Decode(v: Value): Option<BlockRecord> {
    match v
    case Block(rec) => Some(rec)
    case Ptr(host, ttl) => Some(ZERO_RECORD.(host := host, ttl := ttl))
    case Malformed => None
  }

  function EntryOf(ip: string, rec: BlockRecord, createRevision: int, modRevision: int): BlockEntry {
    BlockEntry(ip, rec.source, rec.scenario, rec.action, createRevision, modRevision,
               rec.firstSeen, rec.lastSeen, rec.expiration, Parse(rec.host))
  }

  function CIDREntryOf(cidr: string, net: Network, rec: BlockRecord): CIDREntry {
    Row(cidr, CIDRBlock(net, rec.source, rec.scenario, rec.action,
                        Parse(rec.host), rec.firstSeen, rec.lastSeen, rec.expiration))
  }

  const RECORD_TTL := 120
  const PTR_TTL := 120
  const REVERSE_HOST := "blocked.internal"
  const DEFAULT_RETURN := "127.0.0.2"
  /** The same as a number. */
  const DEFAULT_CODE: U32 := 0x7F00_0002

  function RecordOf(e: BlockEntry): BlockRecord {
    BlockRecord(1, RECORD_TTL, Dotted(e.returnCode), e.source, e.scenario, e.action,
                e.firstSeen, e.lastSeen, e.expiration)
  }

  function RecordOfCIDR(e: CIDRBlock): BlockRecord {
    BlockRecord(1, RECORD_TTL, Dotted(e.returnCode), e.source, e.scenario, e.action,
                e.firstSeen, e.lastSeen, e.expiration)
  }

  /** Entries survive the trip through their record, the return code through its text. */
  lemma {:induction false} EntryRoundTrip(e: BlockEntry)
    ensures EntryOf(e.ip, RecordOf(e), e.createRevision, e.modRevision) == e
  {
    ParseDotted(e.returnCode);
  }

  lemma {:induction false} CIDREntryRoundTrip(e: CIDREntry)
    ensures CIDREntryOf(e.key, e.val.net, RecordOfCIDR(e.val)) == e
  {
    ParseDotted(e.val.returnCode);
  }
}
