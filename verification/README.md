# Open Blocklist: a verified model

Open Blocklist answers block queries from two in-memory tables, one of single
addresses and one of networks, that must agree with the records it keeps in
etcd. This project models how the tables and etcd change and proves what the
service relies on, over whole runs and for all inputs.

- **Text, IPv4Text, Keys, KeyNames, IPv4Net, PrefixRange**: string splitting, the
  IPv4 parser and printer, the etcd key encodings and the DNS names they stand
  for, and prefix ranges over etcd's byte order.
- **SliceMap, CidrTable**: the network table, a slice with swap-with-last
  removal that refines a finite map, and its first-match scan.
- **Records, EtcdLog, Replay, Mirror, LoadFold, Watchers, Replica**: multi-instance mode.
  etcd is an append-only log; an instance loads a snapshot and then follows two
  watch streams that share one stored revision.
- **Store, Restart, CrowdSec, Runs, Service**: single-instance mode. `Service`
  holds the handlers, the expiry code and the CrowdSec poller as methods that
  change the tables in place; each is proved equal to a function of `Store` or
  `CrowdSec`, and the theorems are about runs of those functions, restarts
  among them.
- **Effects, Preserved, Cluster**: what each operation leaves in the tables and in
  etcd on the request's own values, in either mode; first-seen times over whole
  runs; and multi-instance mode end to end, from the handlers' writes through
  the log to the tables of every caught-up follower.
- **Poller, Expiry, NetExpiry**: queued deletions interleaved with the CrowdSec
  poller, and with readers and writers of either table.
- **LogQueue, Quoting, DnsNames, Percentiles**: the asynchronous log, JSON
  quoting, DNSBL names, and the benchmark tool's shell sort.

Go's `net` package enters through the record `NetLib`. `Lawful` states what is
assumed of it (which characters address text may hold, and that canonical text
parses back); `IPv4Net.IPv4LibLawful` shows that the IPv4 part of the package,
written out, meets the assumptions, and `IPv4Net.IPv6LibLawful` that it still
does with an IPv6 text. JSON and base64 of record values are an
inverse pair: a stored `Value` is the record itself, or `Malformed`. Clock
readings, parsed durations and parsed timestamps are parameters.

## Findings

- **A write can be missed on connect, even the first.** Both watchers share
  `gEtcdRevision`, so a header that one stream receives moves the other's next
  connect past events it was never given. Load, one write, one stream connects
  and receives a header, the other connects: the write is gone from its table
  for good, with no connection ever broken, on the address table
  (`Watchers.SharedRevisionLosesAWrite`) and on the network table
  (`Watchers.SharedRevisionLosesANetwork`). `Watchers.ConnectIff` and
  `Watchers.CidrConnectIff` give the exact conditions, `Watchers.AlwaysFoldIff`
  the exact condition on whole runs.
- **A sweep in multi-instance mode can drop a fresh record.** It collects expired
  entries and deletes each in etcd and then in the table; a new block handed on
  in between is lost (`Watchers.LateSweepLosesAWrite`). `Watchers.IpStepIff`
  gives the exact condition.
- **An undecodable value reads differently by load and by watch.** The address
  loader stores an empty record and the watcher keeps the old one; the network
  loader drops the network and the watcher keeps it
  (`Mirror.UndecodableAddress`, `Mirror.UndecodableNetwork`; exact conditions in
  `Mirror.IpLoadIsFold`, `Mirror.CidrLoadIsFold`).
- **An IPv6 key can read as an IPv4 address.** Both readers take the last four
  path segments of a key, for IPv6 its last four nibbles. When these are decimal
  digits they spell an IPv4 address (`Keys.IpFromRblKey6`): blocking
  `2001:db8::1234` blocks `1.2.3.4` after a restart (`Restart.RestartReadsIPv4`)
  and on every follower, and lifting it there also lifts a block of `1.2.3.4`
  itself (`LoadFold.AliasDeletes`). Other IPv6 keys load under text that is no
  address and are nothing to a watcher. `LoadFold.LoadIsFoldIff` says exactly
  when a load and the watched log agree, IPv6 keys included.
- **Blocking an expired address again can be undone.** `handlePut` and
  `crowdSecApplyIP` look the old entry up, which queues a deletion that later
  removes whatever is then in the table. By request:
  `Expiry.ReblockCanBeLost`, exact condition in `Expiry.CommitInvisibleIff`. By
  a CrowdSec decision on an address whose entry has expired, as after a restart:
  `Poller.RelistedCanBeLost`, exact conditions in `Poller.ReconcileExactIff`,
  `Poller.PollsExactIff` and `Poller.ExactIff`. The same holds for networks once
  a query has stopped at the expired entry: `NetExpiry.ReblockCanBeLost`,
  `NetExpiry.BlockInvisibleIff`.
- **An expired network's first-seen time survives a new block only until its
  deletion has run** (`NetExpiry.FirstSeenUntilDeleted`); an expired address's
  never does.
- **Only dotted quads survive a restart.** `Restart.RestartAfterPutIff`: after
  an accepted PUT into any store that mirrors etcd, loading gives the same table
  back exactly for dotted-quad text. Every IPv6 address is lost
  (`Restart.IPv6Lost`); blocking `::` leaves `0.0.0.0` blocked in its place
  (`Restart.UnspecifiedMoves`).
- **The network lookup stops at the first covering entry even if it is
  expired**, although the comment at src/cidr.go:40 says such entries are
  skipped. The model follows the code; `CidrTable.LookupSkipsExpiredIff` says
  when the two readings agree and `CidrTable.LookupConverges` how soon a live
  entry is reached.
- **A CrowdSec deletion removes the entry under its key whatever its source**,
  such as a ban set by hand (`CrowdSec.DeletionTakesManualBan`,
  `CrowdSec.RemoveSparesOthersIff`).
- **A DNS name of sixteen labels that are each one dot** (written `\.` each)
  splits at dots into 32 fields with fewer than 32 characters, and decoding it
  slices out of range (`DnsNames.DotLabelsPanic`, exact condition in
  `DnsNames.PanicsIff`).
- **`LogInit` has no caller**, so in the program as it stands the log channel is
  nil, each sender writes its own lines, and nothing is queued, closed or lost
  (`LogQueue.WithoutInit`). Once `LogInit` is called, logging after the flush
  began panics: the channel is closed while senders may still be between copying
  a line and sending it (`LogQueue.PanicIffSenderLeft`).
- The IPv4 parser also accepts empty and zero-padded fields, which its comment
  does not mention; `IPv4Text.DottedParse` shows that printing inverts it
  exactly on strict dotted quads.

## Model

| member | source | states |
|---|---|---|
| IPv4Text.IPv4StrToUint32 | src/helpers.go:354-384 | For every string the loop returns the base-256 value of its fields when splitting at dots gives exactly four all-digit fields (empty and zero-padded ones allowed) each at most 255, and 0 otherwise |
| IPv4Text.NoOverflow | src/helpers.go:371-371 | With at most three accepted fields the accumulator is below 2^24, so the left shift never loses a bit |
| IPv4Text.AppendUint8 | src/helpers.go:440-456 | Writes exactly the decimal text of an octet at the given place and keeps what is before it |
| IPv4Text.Uint32ToIPv4Str | src/helpers.go:418-438 | Prints the four octets joined by dots without ever writing outside the 15-byte buffer |
| IPv4Text.ParseDotted | src/helpers.go:354-384 | Parsing the printed text of any uint32 gives it back |
| IPv4Text.DottedParse | src/helpers.go:418-438 | Printing the parsed value gives the text back exactly for strict dotted quads |
| Keys.IPv6Nibbles | src/helpers.go:264-277 | An IPv6 address yields its 32 hexadecimal digits as one-character segments |
| Keys.AddressKeysInjective | src/helpers.go:279-311 | Forward keys and reverse keys each determine the address, over IPv4 and IPv6 together |
| Keys.KeysDisjoint | src/helpers.go:279-311 | Forward, reverse and CIDR keys never coincide |
| Keys.CidrKeyRoundTrip | src/etcd.go:394-405 | Decoding a CIDR key gives the CIDR back exactly when it holds no underscore |
| Keys.CidrKeyInjective | src/etcd.go:394-396 | CIDR texts without underscores have different keys |
| Keys.IpFromRblKey | src/etcd.go:234-251 | The key of every IPv4 address decodes to its dotted text, as the watcher and the loader read it |
| Keys.IpFromRblKey6 | src/etcd.go:276-286 | The loader's reading of an IPv6 key holds no colon; it is a dotted quad iff the last four nibbles are decimal digits, and then the IPv4 address with those octets |
| Keys.WatchedKey6 | src/etcd.go:234-251 | A watcher takes an IPv6 key for that IPv4 address in that case and for no address otherwise |
| Keys.CidrKeyIsNoIp | src/etcd.go:77-80 | Every CIDR key lies in the IP watcher's range, outside the loader's, and decodes to no IP |
| KeyNames.RblKeyIsName | src/helpers.go:279-293 | The forward key of every IPv4 address is the path that the labels of its block-list name, from the last one on, spell |
| KeyNames.ReverseKeyIsName | src/helpers.go:295-304 | The reverse key of every IPv4 address is the path of its name under in-addr.arpa |
| KeyNames.Reverse6IsName | src/helpers.go:306-311 | The reverse key of every IPv6 address is the path of its nibble name under ip6.arpa |
| KeyNames.KeyNibbles | src/helpers.go:264-311 | Segment i of either IPv6 key is the hexadecimal digit of nibble i, the high half of each byte first |
| KeyNames.CidrKeyText | src/etcd.go:390-396 | The key of a network is its text under the prefix with an underscore for the slash |
| PrefixRange.PrefixRangeEnd | src/etcd.go:53-65 | The in-place loop increments the last byte below 0xff and cuts the rest, or returns the sentinel |
| PrefixRange.PrefixRangeExact | src/etcd.go:53-65 | A key starts with the prefix iff it is at or above it in byte order and below the computed end, or the end is the sentinel |
| PrefixRange.RangeEndNotSentinel | src/etcd.go:57-64 | The end is the sentinel exactly when every byte of the prefix is 0xff |
| PrefixRange.LoadRangeExact | src/etcd.go:351-356 | The load range selects the keys that start with the prefix and do not go on with 0xff |
| PrefixRange.LoadSeesWatchedKeys | src/etcd.go:351-356 | Keys without 0xff are in the load range iff they are in the watch range |
| PrefixRange.RangesAreTextPrefixes | src/etcd.go:77-80 | For ASCII keys both ranges mean "starts with the prefix" |
| SliceMap.UpsertMap | src/cidr.go:81-91 | An upsert keeps keys distinct and is a map update |
| SliceMap.RemoveMap | src/cidr.go:94-106 | Swap-with-last removal keeps keys distinct, deletes exactly that key and keeps every other entry |
| SliceMap.SliceRefinesMap | src/cidr.go:69-113 | Every run of upserts and removes on the slice is the same run on a finite map, and the lengths agree |
| CidrTable.CidrTableStore.Lookup | src/cidr.go:41-55 | The scanning loop returns the first entry that contains the address if its expiration is not positive or still ahead of the clock, stops with a deletion of it otherwise, and misses only if no entry contains the address |
| CidrTable.CidrTableStore.FindByCIDR | src/cidr.go:69-78 | Exact-match search is map lookup |
| CidrTable.CidrTableStore.Upsert | src/cidr.go:81-91 | Changes the slice in place as an update of the map |
| CidrTable.CidrTableStore.Remove | src/cidr.go:94-106 | Changes the slice in place as a deletion from the map |
| CidrTable.CidrTableStore.Len | src/cidr.go:108-113 | The length is the size of the map |
| CidrTable.LookupSound | src/cidr.go:41-55 | A returned entry covers the address and is unexpired, a miss means nothing covers it, a queued deletion names an expired covering entry |
| CidrTable.LookupSkipsExpiredIff | src/cidr.go:38-55 | The lookup equals one that skips expired entries unless the first entry that covers the address is expired and a live entry covers it too |
| CidrTable.ExpiredHidesLive | src/cidr.go:46-52 | A two-entry table on which they differ |
| CidrTable.SettleStale | src/cidr.go:57-66 | A lookup that stops, followed by its deletion, removes one expired covering entry and no live one |
| CidrTable.LookupConverges | src/cidr.go:41-66 | With k expired entries and a live one covering the address, at most k+1 lookups return a live covering entry, despite the reordering |
| Records.EntryRoundTrip | src/main.go:576-586 | An address entry survives its record, the return code surviving its trip through text |
| Records.CIDREntryRoundTrip | src/main.go:740-750 | A network entry survives its record |
| EtcdLog.IpUpdatesStamped | src/etcd.go:202-213 | Every watched entry carries the revision of the event that wrote it |
| Replay.OverlapHarmless | src/main.go:1084-1085 | For every log, a snapshot at one position replayed from an earlier one is the fold once it catches up |
| Replay.SkipIffHarmless | src/etcd.go:86-96 | When values carry their revision, skipping a stretch keeps the fold iff every key it touches is absent on both sides of it |
| Replay.SkipIffSettled | src/etcd.go:86-96 | For any stream of updates, skipping a stretch keeps the fold iff the fold already holds what the last update of each skipped key leaves |
| Replay.BetweenRemoveIff | src/main.go:865-870 | Removing a key on the side keeps a table between two states of the log iff the key is absent at the stream's position or its deletion is still ahead |
| Mirror.IpFoldMirrors | src/etcd.go:164-220 | The fold of the IP watcher's updates holds exactly the last decodable record under each IPv4 key since its deletion, under its dotted quad |
| Mirror.CidrFoldMirrors | src/etcd.go:525-565 | The same for the CIDR watcher and the CIDR keys |
| Mirror.ReadableIsState | src/etcd.go:187-195 | Where the live value decodes a follower has it; where it does not a follower has an older one or none |
| Mirror.LoadIpOf | src/etcd.go:267-300 | Loading the rows of the IP range, in any order, gives exactly the records under the IPv4 keys, an empty one where the value does not decode |
| Mirror.LoadCidrOf | src/etcd.go:423-455 | Loading the rows of the CIDR range, in any order, gives exactly the networks whose value decodes |
| Mirror.IpLoadIsFold | src/etcd.go:254-303 | Without IPv6 keys, loading at a revision gives the fold of the log up to it iff every IPv4 key holds a decodable value |
| Mirror.CidrLoadIsFold | src/etcd.go:415-458 | For networks iff no undecodable value has overwritten a decodable one |
| Mirror.UndecodableAddress | src/etcd.go:274-275 | For every IPv4 address a log and its rows on which the load holds the address and the fold does not |
| Mirror.UndecodableNetwork | src/etcd.go:432-436 | For every network a log and its rows on which the fold holds it and the load does not |
| LoadFold.LoadIsFoldIff | src/etcd.go:254-303 | For every log of address and CIDR keys, IPv6 included, loading at a revision gives the fold of the log up to it iff each row that no later row of the same text replaces was written by an event that decodes to an address, the last one to touch that address |
| LoadFold.CurrentIffDecodes | src/etcd.go:254-303 | Without IPv6 keys that condition is that every IPv4 key holds a decodable value |
| LoadFold.AliasDeletes | src/etcd.go:174-183 | For every IPv6 address with a decimal tail, blocking the IPv4 address it spells, then it, then lifting it leaves the watchers without the first though etcd holds it |
| Watchers.SaneRun | src/etcd.go:148-164 | In every run the stored revision stays within the log, no IP event is handed on before it is stored, and networks stay distinct |
| Watchers.IpStepIff | src/etcd.go:75-232 | A load, connect or sweep keeps the IP table between the stream's position and what ran ahead of it if the loaded rows are current, the skipped stretch is settled, or the swept address is leaving anyway; every other step always does; and the condition is necessary (for a connect, once past what ran ahead) |
| Watchers.CidrStepIff | src/etcd.go:464-576 | The same for the network table, whose first connect starts before its load |
| Watchers.CollectsExpired | src/main.go:846-883 | The names a sweep may delete are those whose expiration had passed when it collected |
| Watchers.ConnectIff | src/etcd.go:85-96 | A connect of a caught-up IP watcher keeps the table equal to the fold iff every key in the stretch it skips is absent on both sides of it |
| Watchers.CidrConnectIff | src/etcd.go:464-490 | A connect of a caught-up CIDR watcher does iff the table holds what the last skipped event of each network leaves |
| Watchers.IpTableIsFold | src/etcd.go:75-232 | In every run of appends, loads, headers, deliveries, breaks, connects, collections and sweeps, IPv6 keys included, whose loads, connects and sweeps meet the step condition, the IP table is the fold of the log once the stream is past the last sweep |
| Watchers.AlwaysFoldIff | src/etcd.go:75-232 | In a run without sweeps the IP table is the fold of the log in every state iff every load and connect meets the step condition |
| Watchers.IpTableIsFoldIfDelivered | src/etcd.go:75-232 | In particular in every run without sweeps that loads current rows and whose stream, at each connect, has been handed everything up to the stored revision |
| Watchers.CidrTableIsFold | src/etcd.go:464-576 | In every run whose loads, connects and sweeps meet the step condition the network table is the fold once the stream has caught up with the load and the last sweep |
| Watchers.CidrAlwaysFoldIff | src/etcd.go:464-576 | In a run without network sweeps, with no connect between the stream's position and its load, the network table is the fold in every state past the load iff every load and connect meets the step condition |
| Watchers.NothingLost | src/main.go:1084-1104 | In every such run, streams that have handed on the whole log leave the tables that a fresh load would give iff the rows of that load are current and no decodable network value has been overwritten by an undecodable one |
| Watchers.InstancesAgree | src/main.go:1101-1104 | Two instances on such runs that have handed on the same part of one log, and are past their loads and sweeps, hold the same tables |
| Watchers.SharedRevisionLosesAWrite | src/etcd.go:149-164 | For every IPv4 address a run without a break whose first connects lose its only write |
| Watchers.SharedRevisionLosesANetwork | src/etcd.go:519-523 | For every network a run without a break that loses its only write |
| Watchers.LateSweepLosesAWrite | src/main.go:842-870 | For every IPv4 address a run in which the worker collects an expired block, a new block is written and handed on after the deletion in etcd, and the worker's deletion in the table then removes the new block, which etcd still holds |
| Replica.IpBatchIsDeliveries | src/etcd.go:164-220 | Handling a message's events equals delivering its log positions one by one |
| Replica.CidrBatchIsDeliveries | src/etcd.go:525-565 | The same for CIDR messages on the slice |
| Replica.IpMessageIsRun | src/etcd.go:148-220 | What handling an IP message does to an instance reached by a run is reached by that run with one header step and one delivery step a log position |
| Replica.CidrMessageIsRun | src/etcd.go:519-565 | The same for CIDR messages |
| Replica.Instance.LoadFromEtcd | src/etcd.go:254-303 | The loading loop stores the revision and fills the empty table from the rows |
| Replica.Instance.LoadCIDRFromEtcd | src/etcd.go:415-458 | The loading loop upserts every decodable row that names a network |
| Replica.Instance.HandleIpMessage | src/etcd.go:148-220 | One message raises the stored revision and applies its events in order |
| Replica.Instance.HandleCidrMessage | src/etcd.go:519-565 | One message raises the stored revision and applies its events to the slice in order |
| Replica.Instance.UpdateRevision | src/etcd.go:68-72 | The stored revision never goes back |
| Store.PairedWrite | src/main.go:593-594 | Writing both records of an address leaves every address with both records or neither |
| Store.PairedForget | src/main.go:281-282 | So does deleting both |
| Store.PairedForgetAll | src/main.go:862-866 | So does deleting both for any set of names |
| Store.SweepExact | src/main.go:840-889 | A sweep takes exactly the networks and the parseable addresses with a positive expiration not after the clock out of the tables, and leaves every other entry as it was |
| Restart.MirroredPutIp | src/main.go:472-604 | A PUT of a dotted quad keeps both tables equal to what etcd holds |
| Restart.MirroredDropIp | src/main.go:606-642 | So does a DELETE, and a finished lazy expiry |
| Restart.MirroredPutNet | src/main.go:644-760 | So does a PUT of a network |
| Restart.MirroredDropNet | src/main.go:762-791 | So does a DELETE of a network |
| Restart.MirroredSweep | src/main.go:832-891 | So does a sweep |
| Restart.MirroredRestart | src/main.go:1084-1085 | A restart keeps both tables equal to what etcd holds |
| Restart.RestartRebuilds | src/etcd.go:254-303 | Range rows of a mirrored etcd load back to the current tables, revisions aside |
| Restart.RestartAfterPutIff | src/main.go:573-600 | After an accepted PUT into any store whose tables mirror etcd, a restart gives the address table back iff the request text is a dotted quad |
| Restart.RestartReadsIPv4 | src/etcd.go:276-300 | After a PUT of an IPv6 address with a decimal tail into any store a restart blocks the IPv4 address that the tail spells |
| Restart.IPv6Lost | src/main.go:573-600 | Every IPv6 address blocked alone is missing after a restart, with the rows that the restart reads |
| Restart.UnspecifiedMoves | src/main.go:573-600 | Blocking :: alone leaves 0.0.0.0 blocked after a restart |
| CrowdSec.DropStaleAt | src/crowdsec.go:160-202 | A key is dropped iff CrowdSec held it and it is no longer listed |
| CrowdSec.ApplyAt | src/crowdsec.go:244-333 | Writing a decision makes CrowdSec hold its canonical key in the right table and touches no other key |
| CrowdSec.RemoveAt | src/crowdsec.go:336-366 | Removing a decision takes its canonical key out and touches no other key |
| CrowdSec.ActKeys | src/crowdsec.go:83-104 | As long as no queued deletion runs, any list of prunes, bans and lifts leaves CrowdSec's entries, across both tables, keyed by exactly what the names alone say |
| CrowdSec.ReconcileKeys | src/crowdsec.go:142-211 | By names alone a reconcile leaves the valid canonical values in the stream, whatever was held before |
| CrowdSec.PollKeys | src/crowdsec.go:95-100 | By names alone a poll turns the key set K into (K with the new keys) without the deleted keys |
| CrowdSec.PollsKeys | src/crowdsec.go:83-104 | By names alone any sequence of polls leaves CrowdSec's own account of its keys |
| CrowdSec.RemoveSparesOthersIff | src/crowdsec.go:335-366 | A deletion spares all entries of other sources iff none of them has the decision's key |
| CrowdSec.DeletionTakesManualBan | src/crowdsec.go:350-364 | In every store of the right shape a ban set by hand goes with CrowdSec's deletion of a decision on its address |
| Poller.ScheduleKeys | src/crowdsec.go:261-263 | For every list of actions and every order in which queued deletions run, CrowdSec's keys lie between the named keys without the keys at risk and the named keys |
| Poller.ReconcileSchedule | src/crowdsec.go:142-211 | So after the startup reconcile they lie between the listed values without the keys at risk and the listed values |
| Poller.PollsSchedule | src/crowdsec.go:83-104 | And after any sequence of polls likewise about CrowdSec's own account |
| Poller.SnapshotAfterPolls | src/crowdsec.go:91-101 | After any schedule of polls a snapshot equal to that account finds nothing stale, and every completed schedule of the reconcile against it keeps the key set iff no deletion took a key before and the snapshot relists no expired address |
| Poller.OthersKept | src/crowdsec.go:160-202 | On every schedule an entry of another source that no action names and no deletion awaits is unchanged |
| Poller.ExactIff | src/main.go:266-269 | Every completed schedule of a list of actions ends with exactly the named keys iff no key still named at the end was banned when its entry, by the table and the actions before, had expired |
| Poller.PollsExactIff | src/crowdsec.go:95-100 | Every completed schedule of polls ends with CrowdSec's own account iff no key still listed at the end was banned when its entry, by the table and the deltas before, had expired |
| Poller.ReconcileExactIff | src/crowdsec.go:260-263 | Every completed schedule of a reconcile ends with exactly the listed keys iff no listed address is expired, in the table or in its last earlier duplicate in the stream, when it is looked up |
| Poller.RelistedCanBeLost | src/crowdsec.go:260-285 | For every table that holds an expired entry of an address and a stream that lists it again, the queued deletion removes the new block |
| Poller.ReconcileKeepsIff | src/crowdsec.go:142-211 | From any store, every completed schedule of a reconcile keeps CrowdSec's key set iff it is the listed one and no expired address is relisted |
| Poller.EagerDeletions | src/main.go:266-269 | For every list of actions the schedule that runs each deletion at once ends with exactly the named keys |
| Runs.PairedStep | src/crowdsec.go:277-278 | Every operation, in either mode and for every address, keeps records paired |
| Runs.PairedRun | src/main.go:862-866 | In every state of every run, restarts included, etcd holds the forward record of an address iff it holds the reverse record |
| Runs.MirroredRun | src/main.go:472-791 | In every state of an IPv4 run of writes, deletions, sweeps, CrowdSec steps and restarts, from any state that mirrors etcd, both tables hold exactly what etcd holds |
| Runs.EmptyStart | src/main.go:252-254 | A first start meets what the run theorems ask of their first state |
| Runs.RestartLosesNothing | src/main.go:1084-1085 | At every point of such a run loading from etcd rebuilds both tables, revisions aside |
| Runs.ShapedRun | src/crowdsec.go:164-193 | Address keys never hold a slash, network keys always do, and networks stay distinct, in every run and after every restart |
| Effects.PutRecords | src/main.go:573-594 | In either mode an accepted PUT leaves the record that the request describes, with the kept first-seen time, and its reverse record in etcd, and changes no other key |
| Effects.PutEntry | src/main.go:490-600 | In single-instance mode it leaves the entry that the request describes under the request's text, and no table changes in multi-instance mode |
| Effects.PutRejected | src/main.go:483-569 | A PUT with an unknown parameter, an unparseable time, both a duration and an expiration, or text that names no address or network changes nothing |
| Effects.BlockedUntil | src/main.go:549-571 | After a PUT with a duration a lookup at any time finds the address iff that time is before the clock plus the duration (or that sum is not positive), and likewise for an expiration; without either it always does |
| Effects.PutNetRecord | src/main.go:740-752 | In either mode an accepted network PUT leaves the described record under its key and changes no other |
| Effects.PutNetEntry | src/main.go:664-756 | In single-instance mode it leaves the described entry, and no table changes in multi-instance mode |
| Effects.DeleteEffect | src/main.go:606-642 | In either mode a DELETE, and a lazy expiry, takes both records of the address out of etcd and no other key, and the entry out of the table in single-instance mode only |
| Effects.DeleteNetEffect | src/cidr.go:57-66 | The same for a network |
| Effects.BanRecords | src/crowdsec.go:265-278 | In either mode applying a decision leaves the record that the decision describes, with the kept first-seen time, and its reverse record, and changes no other key |
| Effects.BanEntry | src/crowdsec.go:249-284 | In single-instance mode it leaves the described entry under the canonical text, and no table changes in multi-instance mode |
| Effects.BanNetRecord | src/crowdsec.go:314-327 | The record of a decision on a network, in either mode |
| Effects.BanNetEntry | src/crowdsec.go:297-331 | The entry of a decision on a network, in single-instance mode |
| Effects.UnbanEffect | src/crowdsec.go:336-366 | In either mode removing a decision takes the records of its key out of etcd and no other key |
| Effects.SweepKeys | src/main.go:855-889 | In either mode a sweep takes exactly the etcd keys of the entries it sweeps |
| Effects.PruneKeys | src/crowdsec.go:160-202 | In either mode a reconcile takes exactly the etcd keys of the entries whose source begins with "crowdsec" and which are no longer listed |
| Effects.PruneEntries | src/crowdsec.go:160-202 | And exactly those entries out of the tables, in single-instance mode only |
| Preserved.FirstSeenKept | src/main.go:504-507 | In every run an address keeps its first-seen time while it is not deleted and is unexpired whenever a request or a decision writes it again |
| Preserved.NetFirstSeenKept | src/main.go:679-682 | In every run a network keeps its first-seen time while it is not deleted |
| Cluster.StepChanges | src/main.go:593-594 | In either mode each handler, lazy expiry and CrowdSec step does to etcd exactly its list of calls |
| Cluster.TablesUntouched | src/main.go:596-600 | In multi-instance mode it does nothing to the tables |
| Cluster.LogTracks | src/main.go:593-594 | The log that a run of IPv4 operations appends to always ends in what etcd holds |
| Cluster.FollowerMirrors | src/etcd.go:75-232 | The tables of a caught-up follower are the image of what etcd holds, as those of a single instance are |
| Cluster.FollowersConverge | src/main.go:1101-1104 | After every run of IPv4 operations on any instances the tables of every caught-up follower are the image of etcd |
| Cluster.FollowerHas | src/etcd.go:164-220 | A caught-up follower holds an IPv4 address iff etcd holds its key, with every field of its record |
| Cluster.DeleteReaches | src/main.go:630-631 | After a DELETE no caught-up follower holds the address |
| Cluster.PutReaches | src/main.go:573-594 | After an accepted PUT every caught-up follower holds the address with every field as requested and the first-seen time that the handling node kept |
| Service.ReadQuery | src/main.go:509-571 | Reading the parameters gives each field of the entry on the request's values and defaults, a duration counted from the clock, or rejects the request iff a parameter is unknown, malformed or in conflict |
| Service.DefaultReturnText | src/main.go:111-111 | The default return code parses to its number, which prints back to its own text |
| Service.Instance.IpTableLookup | src/main.go:256-272 | Returns the entry iff it is there with an expiration that is not positive or still ahead of the clock, and queues a deletion iff it is there and the expiration has passed |
| Service.Instance.DeleteExpiredIP | src/main.go:274-291 | Exactly both records of the address leave etcd in either mode, and in single-instance mode the entry leaves the table |
| Service.Instance.HandlePut | src/main.go:472-604 | The whole new state of an accepted PUT with the first-seen time of an unexpired entry kept, no change by a rejected one, and when the lookup queues a deletion |
| Service.Instance.HandleDelete | src/main.go:606-642 | Exactly both records of the address leave etcd in either mode, and in single-instance mode the entry leaves the table |
| Service.Instance.HandlePutNetwork | src/main.go:644-760 | The whole new state of an accepted network PUT, and no change by a rejected one |
| Service.Instance.HandleDeleteNetwork | src/main.go:762-791 | The whole new state of a network DELETE |
| Service.Instance.DeleteExpiredCIDR | src/cidr.go:57-66 | The record goes, and in single-instance mode the entry |
| Service.Instance.CollectExpired | src/main.go:842-853 | The first phase collects exactly the addresses with a positive expiration not after the clock, in whatever map order |
| Service.Instance.CollectExpiredCidrs | src/main.go:875-883 | And exactly the networks with such an expiration |
| Service.Instance.RemoveExpired | src/main.go:855-873 | The second phase removes the collected addresses from etcd and, in either mode, from the table |
| Service.Instance.ExpirationSweep | src/main.go:840-889 | One tick of the worker is the sweep of both tables |
| Service.Instance.CrowdSecApply | src/crowdsec.go:214-333 | The whole new state of applying one decision, and the deletion that its lookup starts |
| Service.Instance.CrowdSecRemove | src/crowdsec.go:336-366 | The whole new state of removing one decision |
| Service.Instance.CrowdSecDelta | src/crowdsec.go:95-100 | The whole new state of a poll, which applies the new decisions and then removes the deleted ones, and every deletion it starts |
| Service.Instance.CanonicalValues | src/crowdsec.go:145-158 | The loop builds exactly the set of valid canonical values |
| Service.Instance.CrowdSecReconcile | src/crowdsec.go:142-211 | The loops compute the reconcile that the theorems above are about, and every deletion it starts |
| Expiry.RelatedStep | src/main.go:266-288 | Every step keeps the table equal to the reference up to missing expired entries, with only expired keys queued |
| Expiry.QueuesExpired | src/main.go:266-269 | A lookup, a PUT or a sweep queues deletions of exactly the entries it comes across whose expiration has passed |
| Expiry.ExpiryInvisible | src/main.go:256-291 | In every run whose writes are safe, every lookup answers, and every PUT carries on, what a table that never deletes expired entries gives: the entry, and its first-seen time, unless its expiration has passed |
| Expiry.ExpiryInvisibleFrom | src/main.go:256-291 | In particular in every safe run from any table with nothing queued, such as one just loaded |
| Expiry.CommitInvisibleIff | src/main.go:504-507 | No later run can tell a write from the reference iff its key awaits no deletion or the new entry is already expired |
| Expiry.ReblockCanBeLost | src/main.go:504-600 | Blocking an expired address again is never safe, and the queued deletion removes the new block |
| NetExpiry.RelatedStep | src/cidr.go:41-66 | Every safe step keeps the slice equal to a reference that never deletes, up to missing expired networks, with only expired ones queued |
| NetExpiry.QueuesExpired | src/cidr.go:46-52 | A query or a sweep queues deletions of exactly the networks it comes across whose expiration has passed, a query only of the first that contains the address |
| NetExpiry.NetExpiryInvisible | src/cidr.go:41-66 | In every safe run the blocked networks are those of the reference |
| NetExpiry.QueryAnswers | src/cidr.go:41-55 | In every safe run a query returns a network that the reference has blocked and that covers the address, or misses only if the reference has none, or stops at one that is not blocked |
| NetExpiry.BlockInvisibleIff | src/main.go:752-756 | A network block stays in force on every later safe run iff no deletion of the network is queued or the new entry is already expired |
| NetExpiry.ReblockCanBeLost | src/cidr.go:46-66 | A query stops at an expired network, the network is blocked again, and the queued deletion removes the new block |
| NetExpiry.FirstSeenUntilDeleted | src/main.go:679-682 | A network keeps its first-seen time across a new block until the deletion has run, and not after |
| Percentiles.ShiftUp | testing/perftest/main.go:89-94 | The inner loop leaves a hole above which the stride exceeds the moved element, losing no element |
| Percentiles.InsertStride | testing/perftest/main.go:88-96 | One more element is in order along its stride |
| Percentiles.SortDurations | testing/perftest/main.go:83-99 | Every array ends as a sorted permutation of itself |
| Percentiles.SortedUnique | testing/perftest/main.go:83-99 | A sample has one sorted arrangement |
| Percentiles.PercentileIndices | testing/perftest/main.go:78-80 | The three indices are in range and ordered for every non-empty sample |
| Percentiles.Result.ComputePercentiles | testing/perftest/main.go:70-81 | The fields become those elements of the sorted arrangement, in order, and nothing changes for an empty sample |
| Quoting.AppendQuoted | src/log.go:144-169 | Appends the quoted form of any byte string |
| Quoting.QuoteRoundTrip | src/log.go:144-169 | A JSON string reader recovers the bytes and stops right after the closing quote, whatever follows, so only the first and last quotes are unescaped |
| Quoting.EscapePrintable | src/log.go:159-166 | No byte below 0x20 appears |
| Quoting.StreamSplits | src/log.go:201-208 | A stream of JSON lines splits at newlines into exactly those lines, whatever their fields contain |
| LogQueue.OwnedStep | src/log.go:59-77 | No step of any thread gives a buffer two holders |
| LogQueue.InvStep | src/log.go:108-131 | Every step keeps ownership, conservation and order |
| LogQueue.LogRun | src/log.go:59-131 | In every interleaving, up to a panic if there is one, lines sent are lines written plus lines in flight, queued lines are written in order and unchanged, and no queued message shares a buffer with the pool or a sender |
| LogQueue.SenderWritesIffFull | src/log.go:124-130 | In every run a sender writes its line itself iff there is no channel or it is full, and queues it at the end otherwise |
| LogQueue.PoolReuses | src/log.go:59-77 | In every run a buffer is made iff the pool is empty, and one put back is kept iff the pool has fewer than 256 |
| LogQueue.BoundedRun | src/log.go:48-92 | In every run neither channel holds more than its capacity |
| LogQueue.WithoutInit | src/log.go:38-42 | In every run in which the writer is never started nothing is queued, closed or panics, and every line sent has been written by its sender or is still with it |
| LogQueue.FlushComplete | src/log.go:98-114 | When the worker is done the queue is empty and everything queued has been written in order; the lines not written are those of senders between copy and send, so nothing is missing iff there is none |
| LogQueue.PanicsIffSends | src/log.go:119-131 | Once the channel is closed a run panics iff it sends a line or flushes again |
| LogQueue.PanicIffSenderLeft | src/log.go:98-131 | With no line copied later and no second flush, a panic is reachable iff a sender is between copy and send |
| LogQueue.LateLinePanics | src/log.go:119-131 | From every state with the channel closed, a line logged later reaches a panic |
| LogQueue.FlushEnds | src/log.go:98-114 | From every state with the channel closed, short of a panic, the worker alone reaches its exit |
| DnsNames.RblQueryToIP | src/dns.go:183-211 | The loops compute the decoding, including the out-of-range slice |
| DnsNames.QueryRoundTrip | src/dns.go:183-225 | For every IPv4 address both decoders give back the address whose reversed name the client built |
| DnsNames.NibblesReversed | src/dns.go:195-206 | For 32 one-character labels the text is the labels reversed, in groups of four with colons between |
| DnsNames.NibblesInjective | src/dns.go:195-206 | Different nibble names decode to different text |
| DnsNames.PanicsIff | src/dns.go:204-204 | The slice is out of range iff there are 32 labels with fewer than 32 characters |
| DnsNames.DotLabelsPanic | src/dns.go:204-204 | Sixteen one-dot labels before the zone slice out of range |

## Left out

- HTTP, DNS and etcd transport, retries and scanners: requests are operations, etcd is a log or a map, and a watch message is its header and events.
- JSON and base64 of record values: foreign libraries; a value that fails to decode is `Malformed`, and what a failed decode leaves of a partly filled record is not modelled.
- Failing etcd calls: every put and delete is taken to succeed, as the handlers ignore the outcome.
- Overlapping handlers: an operation of `Runs` writes its records and its table entry in one go; the time between a lookup and a write is open to others in `Runs`, `Expiry` and `Poller`, the time between two puts or deletes of one write is not.
- Sweeps and reconciles in `Cluster`: they enter as the series of single deletions and writes that they are, not as operations of their own.
- Requests beside the CrowdSec poller: `Poller` interleaves it with queued deletions only, as a request may add or delete any key.
- IPv6 restart theorems: the key decoders do not invert the nibble keys, so `MirroredRun` and `RestartLosesNothing` are about IPv4 runs; for IPv6 `Restart.IPv6Lost` shows what happens instead.
- LogQueue: buffers are identities with contents, and threads are interleaved steps of one state machine, so a buffer's byte capacity and the reallocation of its storage are not modelled.
- Quoting.QuoteRoundTrip: the reader refuses escapes beyond ASCII, which the writer never produces.
- `isIPv4`-style helpers, metrics, health checks, configuration, signals, response formatting and listing: thin code that would only add easy members.
- Random address generation and the benchmark's concurrency: they depend on a random source and on timing.
