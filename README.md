# Calamari mon remote, modelled in Dafny

Calamari is a management service for Ceph clusters. On a Ceph monitor host,
the `MonRemote` module acts as its agent in
`calamari-common/calamari_common/remote/mon_remote.py`. This project models
that agent and proves properties of the model. The agent does four things:

- It answers jobs. It fetches one synced cluster object with its version
  (`get_cluster_object`). It runs batches of monitor commands
  (`rados_commands`) and raw `ceph` or `rbd` command lines. It runs the job
  dispatcher `run_job`.
- It emits heartbeats. The server heartbeat comes from scanning the local
  admin sockets (`get_heartbeats`, `service_status`). The cluster
  heartbeats carry the cluster map versions (`cluster_status`), and the
  PG-state digest (`pg_summary`) feeds into those versions.
- It keeps a job table and delivers events to subscribers through a
  process-wide generator (`MsgGenerator`).
- It lets a caller subscribe, receive events and hand them to callbacks
  (`MonRemote.listen`).

The model has one module per part, in order of dependency:

| file | module | part |
|---|---|---|
| `wrappers.dfy` | `Wrappers` | Option, Result, and the Python exceptions the agent raises, as values |
| `json.dfy` | `Json` | decoded JSON values, with dict and list access that fail the way Python does |
| `pg_summary.dfy` | `PgSummary` | `pg_summary`: the loop (`Summarize`), the fold that specifies it (`Reduce`), and what its three tables count |
| `rados.dfy` | `Rados` | `rados_command`: reply classification; `rados_commands`: the loop, plus a stop-at-first-failure specification |
| `cluster_object.dfy` | `ClusterObject` | the `SYNC_TYPES` table, the version rule, the `osd_metadata` loop, `get_cluster_object` and `cluster_status` |
| `heartbeat.dfy` | `Heartbeat` | the socket file-name patterns of `service_status`, and the two loops of `get_heartbeats` |
| `cli.dfy` | `Cli` | `ceph_command` and `rbd_command` argv, `get_ceph_version`, the admin-socket length header |
| `events.dfy` | `Events` | event kinds, the calls `listen` makes for each event, and `run_job` / `run_job_thread` / `run_job_sync` |
| `bus.dfy` | `Bus` | class `Generator` (`MsgGenerator`) and class `Subscriber` (`MonRemote`) |

The cluster client is not modelled, and neither are the sockets, the
subprocesses or the digest functions. Instead, the model receives what each
of them answers:

| parameter | stands for |
|---|---|
| `Rados.Ask`, `ClusterObject.Env` | the cluster client |
| `Rados.Step` | a `crushtool` run and a `json_command` reply |
| `Heartbeat.Probe` | the admin socket's answers |
| `statusOf` of `Heartbeat.GetHeartbeats` | what `cluster_status` gives for each cluster name (a failed connection being a RadosError); it is not tied to `ClusterObject.ClusterStatus` |
| `versionOut` of `Heartbeat.GetHeartbeats` | the output of `ceph --version` |
| `bootTime` of `Heartbeat.GetHeartbeats` | the `btime` line of `/proc/stat` |
| `hash`, `pack` | `md5` and `msgpack.packb` |

Every operation that loops in the source is a Dafny method with a `while`
loop. The method is proved equal to a specification function, and the
properties of the source are proved as lemmas about that function.
`MsgGenerator` and `MonRemote` update their own fields, so they are classes.

## Model

| member | source | states |
|---|---|---|
| PgSummary.BeforeFirstDot | calamari-common/calamari_common/remote/mon_remote.py:196 | `split('.')[0]`: a dot-free prefix of the id, which either is the whole id or is followed by a '.' |
| PgSummary.ParseInt | calamari-common/calamari_common/remote/mon_remote.py:196 | `int()` in base 10 fails with a ValueError carrying the text it rejects |
| PgSummary.ParseIntAccepts | calamari-common/calamari_common/remote/mon_remote.py:196 | an accepted text holds only white space, signs and digits, at least one digit, and a '-' when the value is negative |
| PgSummary.ParseIntSignGap | calamari-common/calamari_common/remote/mon_remote.py:196 | white space between the sign and the digits is skipped: `- 3` reads as -3 and `+ 3` as 3 |
| PgSummary.ParseIntShow | calamari-common/calamari_common/remote/mon_remote.py:196 | `int()` reads back every canonical decimal numeral, negative ones included |
| PgSummary.PoolOfPgid | calamari-common/calamari_common/remote/mon_remote.py:196 | a PG id `<pool>.<seed>` belongs to pool `<pool>`, whatever the seed text holds, dots included |
| PgSummary.Summarize | calamari-common/calamari_common/remote/mon_remote.py:174-217 | the loop returns exactly the fold `Reduce`: the three tables, or the ValueError of the first PG id whose pool prefix is not an integer |
| PgSummary.CountPg | calamari-common/calamari_common/remote/mon_remote.py:183-210 | one record adds its tally when its pool parses, and otherwise fails with that parse error |
| PgSummary.CountActing | calamari-common/calamari_common/remote/mon_remote.py:184-194 | the inner loop bumps `osds[osd][state]` once per acting OSD, in order |
| PgSummary.ReduceTallies | calamari-common/calamari_common/remote/mon_remote.py:183-210 | a record whose pool parses adds its tally to the prefix before it |
| PgSummary.ReduceFailsAt | calamari-common/calamari_common/remote/mon_remote.py:196 | a record whose pool does not parse fails the whole listing with that error |
| PgSummary.ReduceFailurePersists | calamari-common/calamari_common/remote/mon_remote.py:183-196 | once a prefix has failed, later records do not change the outcome |
| PgSummary.ReduceAll | calamari-common/calamari_common/remote/mon_remote.py:206-210 | `all[s]` is the number of records in state s, and s is a key exactly when that number is positive |
| PgSummary.ReduceByPool | calamari-common/calamari_common/remote/mon_remote.py:196-204 | `by_pool[p][s]` is the number of pool-p records in state s; the pools and states present are exactly those that occur |
| PgSummary.ReduceByOsd | calamari-common/calamari_common/remote/mon_remote.py:184-194 | `by_osd[o][s]` counts o's appearances in the acting sets of state-s records; the keys are exactly the OSDs that appear |
| PgSummary.PoolTotalsCount | calamari-common/calamari_common/remote/mon_remote.py:196-210 | summed over all pools, the per-pool count of a state is that state's overall count |
| PgSummary.CountPermutation | calamari-common/calamari_common/remote/mon_remote.py:183 | every counted quantity is the same for two listings holding the same records |
| PgSummary.ReduceFailsIff | calamari-common/calamari_common/remote/mon_remote.py:196 | the summary fails exactly when some record's pool prefix is not an integer |
| PgSummary.ReduceOrderFree | calamari-common/calamari_common/remote/mon_remote.py:174-217 | reordering the PG dump changes neither whether the summary succeeds nor what it is |
| PgSummary.SinglePgExample | calamari-common/calamari_common/remote/mon_remote.py:174-217 | PG "3.a" acting on OSDs 1 and 2 gives one count per OSD, one for pool 3 and one overall |
| Rados.JsonArgs | calamari-common/calamari_common/remote/mon_remote.py:237-238 | the argument dict sent is the caller's dict with `format` set to `json`, and no other key is changed |
| Rados.RadosCommand | calamari-common/calamari_common/remote/mon_remote.py:220-257 | fails exactly on a nonzero return (raising rados.Error with the status text) or on a non-empty buffer that does not decode; `decode=False` returns the raw buffer |
| Rados.RadosDoc | calamari-common/calamari_common/remote/mon_remote.py:245-255 | the decoded document, or None for an empty buffer, with rados_command's errors |
| Rados.RadosText | calamari-common/calamari_common/remote/mon_remote.py:245-257 | `decode=False` succeeds exactly on a zero return and gives the buffer |
| Rados.FirstUnclean | calamari-common/calamari_common/remote/mon_remote.py:300-325 | the first command that does not run cleanly: every command before it does |
| Rados.RadosCommands | calamari-common/calamari_common/remote/mon_remote.py:286-338 | the loop, including the `osd setcrushmap` compilation, returns exactly what `Batch` specifies, with the requests it submitted |
| Rados.BatchErrorIff | calamari-common/calamari_common/remote/mon_remote.py:310-338 | a returned report has `error` set exactly when some command returned nonzero |
| Rados.BatchResults | calamari-common/calamari_common/remote/mon_remote.py:310-338 | an error report holds the outputs before the first nonzero return, in order, plus that command's status text; a success report holds one output per command; both hold the fsid and the versions snapshot |
| Rados.BatchSubmissions | calamari-common/calamari_common/remote/mon_remote.py:300-309 | commands are submitted in order, each as prepared, and nothing after the one the batch stops at |
| Rados.SingleAgreesWithBatch | calamari-common/calamari_common/remote/mon_remote.py:245-254 | rados_command decodes a reply exactly when the batch records it, and with the same value |
| Rados.StopsAtFirstFailure | calamari-common/calamari_common/remote/mon_remote.py:310-316 | of three commands where the second fails, the third is never submitted and the report holds only the first output |
| ClusterObject.ParseSyncType | calamari-common/calamari_common/remote/mon_remote.py:411 | `assert sync_type in SYNC_TYPES`: accepted exactly for the listed names, and AssertionError otherwise |
| ClusterObject.SyncTypeNamesClosed | calamari-common/calamari_common/remote/mon_remote.py:40-47 | every sync type is accepted under its own name, and no two types share a name |
| ClusterObject.VersionOf | calamari-common/calamari_common/remote/mon_remote.py:427-445 | the version rule: election epoch, map epoch, the digest of the packed PG summary, or the digest of the raw text |
| ClusterObject.EpochVersionIgnoresRest | calamari-common/calamari_common/remote/mon_remote.py:429-433 | an epoch-versioned object's version reads only its epoch key |
| ClusterObject.DigestVersionReadsRawOnly | calamari-common/calamari_common/remote/mon_remote.py:421-435 | the health and config versions depend on the raw text alone |
| ClusterObject.CollectOsdMetadata | calamari-common/calamari_common/remote/mon_remote.py:472-485 | the osd_metadata loop returns exactly the fold `OsdMetadata` |
| ClusterObject.OsdMetadataKept | calamari-common/calamari_common/remote/mon_remote.py:474-485 | the list holds, in dump order, one entry per OSD whose metadata query succeeded: its decoded metadata with `osd` set to its id |
| ClusterObject.OsdMetadataFailsIff | calamari-common/calamari_common/remote/mon_remote.py:474-485 | a failed metadata query never makes the loop raise; only a malformed entry or undecodable output does |
| ClusterObject.SkipsUnansweredOsd | calamari-common/calamari_common/remote/mon_remote.py:480-485 | with three OSDs whose second query fails, the metadata of the first and third is kept |
| ClusterObject.UnknownSyncTypeFails | calamari-common/calamari_common/remote/mon_remote.py:411 | an unknown sync type fails at the assertion, whatever the cluster answers |
| ClusterObject.StatusFsid | calamari-common/calamari_common/remote/mon_remote.py:415-420 | `status['fsid']` of the decoded `status` reply: fails with ValueError when the reply does not decode, and otherwise exactly when the document is not a dict holding `fsid` |
| ClusterObject.GetClusterObject | calamari-common/calamari_common/remote/mon_remote.py:403-492 | an unknown type fails at the assertion; a status reply without an fsid, a failing `_get_config` for config, or a nonzero return of the main query (the `assert ret == 0`) fails it; an object carries the requested type |
| ClusterObject.FullOsdMap | calamari-common/calamari_common/remote/mon_remote.py:451-485 | succeeds only when the tree, crush dump and crush map queries and the decompilation all returned 0; a failed tree query is an AssertionError; a dump that is not a dict is a TypeError |
| ClusterObject.GetClusterObjectVersion | calamari-common/calamari_common/remote/mon_remote.py:403-492 | a fetched object carries the requested type, the fsid of the status reply, the version the rule gives, and its data: the decoded config, the reduced summary for pg_summary, the full map for osd_map, the decoded main reply otherwise |
| ClusterObject.FullOsdMapShape | calamari-common/calamari_common/remote/mon_remote.py:446-485 | the full OSD map keeps the dump's other fields and adds `tree` (the `osd tree` reply at the dump's epoch), `crush` (the crush dump), `crush_map_text` (the decompiled crush map of that epoch) and `osd_metadata` |
| ClusterObject.OsdMapCarriesMetadata | calamari-common/calamari_common/remote/mon_remote.py:446-492 | a fetched osd_map has its osd_metadata from the metadata loop over its `osds` |
| ClusterObject.MonEpoch | calamari-common/calamari_common/remote/mon_remote.py:641 | `status.get('monmap', {}).get('epoch')`: `monmap['epoch']` when both keys are present, None when either is missing, AttributeError when either level is not a dict |
| ClusterObject.OsdEpoch | calamari-common/calamari_common/remote/mon_remote.py:642 | `status['osdmap']['osdmap']['epoch']` read level by level with `.get`: the epoch when present, None for a missing key at any level, AttributeError for a non-dict at any level |
| ClusterObject.MdsEpoch | calamari-common/calamari_common/remote/mon_remote.py:646 | from `fsmap` when present, otherwise from `mdsmap`, otherwise None |
| ClusterObject.ReadStatus | calamari-common/calamari_common/remote/mon_remote.py:640-646 | succeeds exactly when the fsid and the three epochs can be read, and returns them |
| ClusterObject.PgDigest | calamari-common/calamari_common/remote/mon_remote.py:656-657 | the digest of the packed summary, which fails exactly when the PG dump or its summary fails |
| ClusterObject.ClusterStatus | calamari-common/calamari_common/remote/mon_remote.py:630-675 | reports the cluster name and one version for each of the eight sync types; a failing `_get_config` (its AdminSocketError) fails it |
| ClusterObject.Versions | calamari-common/calamari_common/remote/mon_remote.py:665-674 | the versions dict has exactly the eight sync types as keys, each holding its own source value |
| ClusterObject.ClusterStatusVersions | calamari-common/calamari_common/remote/mon_remote.py:634-675 | each reported version comes from its own query: election epochs, status epochs and fsid, the health text digest, the PG summary digest, the config digest |
| ClusterObject.HeartbeatVersionsMatchObjects | calamari-common/calamari_common/remote/mon_remote.py:403-445 | for the mon, quorum, pg_summary, health and config types, the heartbeat version equals the version get_cluster_object gives for the same cluster |
| Heartbeat.Basename | calamari-common/calamari_common/remote/mon_remote.py:594 | `os.path.basename`: the slash-free tail after the last '/' |
| Heartbeat.LastMark | calamari-common/calamari_common/remote/mon_remote.py:594-601 | the greedy `(.*)` ends at the last admissible position |
| Heartbeat.PrimaryShape | calamari-common/calamari_common/remote/mon_remote.py:594-597 | when the primary pattern matches, the base name is `<cluster>-<type>.<id>` followed by a character and `asok`, and the type is dot-free |
| Heartbeat.FallbackShape | calamari-common/calamari_common/remote/mon_remote.py:598-601 | when only the vstart pattern matches, the cluster is "ceph" and the base name is `<type>.<id>` followed by a character and `asok` |
| Heartbeat.ParseSocketName | calamari-common/calamari_common/remote/mon_remote.py:594-601 | the primary pattern gives a dot-free type and a base name `<cluster>-<type>.<id>` plus a character and `asok`; failing it, the vstart pattern gives cluster "ceph" and `<type>.<id>`; failing both, AttributeError |
| Heartbeat.SocketNameRoundTrip | calamari-common/calamari_common/remote/mon_remote.py:594-597 | parsing a service's socket file name gives back its cluster, type and id |
| Heartbeat.VstartName | calamari-common/calamari_common/remote/mon_remote.py:598-601 | a dash-free `<type>.<id>.asok` parses with cluster "ceph" |
| Heartbeat.Describe | calamari-common/calamari_common/remote/mon_remote.py:603-627 | the names are kept, the fsid and version are the answers' `fsid` and `version` keys, a status is present exactly for mons and is their `mon_status` answer, and it fails exactly when a socket answer or a key fails |
| Heartbeat.ServiceStatus | calamari-common/calamari_common/remote/mon_remote.py:590-627 | the names come from the socket's base name (AttributeError when neither pattern matches), the fsid and version from the socket's answers, and a mon carries its `mon_status` |
| Heartbeat.InQuorum | calamari-common/calamari_common/remote/mon_remote.py:558 | true exactly for a mon whose status has a `rank` that is in its `quorum` list; false for any other service |
| Heartbeat.ScanSockets | calamari-common/calamari_common/remote/mon_remote.py:543-560 | the socket loop returns exactly the fold `ScanAll` |
| Heartbeat.ScanFailsIff | calamari-common/calamari_common/remote/mon_remote.py:543-560 | the scan raises exactly when some socket's answers raise anything but rados.Error, or its quorum test fails |
| Heartbeat.ScanServices | calamari-common/calamari_common/remote/mon_remote.py:553-555 | the services dict has an entry exactly for each name of a service that answered, under its own name |
| Heartbeat.ScanMonSockets | calamari-common/calamari_common/remote/mon_remote.py:556-560 | mon_sockets has an entry exactly for each cluster with an in-quorum mon, and each entry is that mon's socket path |
| Heartbeat.ClusterHeartbeats | calamari-common/calamari_common/remote/mon_remote.py:570-579 | cluster_heartbeat holds the status of every in-quorum cluster; rados.Error drops a cluster and any other exception escapes |
| Heartbeat.InstalledVersion | calamari-common/calamari_common/remote/mon_remote.py:564-568 | the installed version is the third word of `ceph --version`, or None when that word is missing or empty |
| Heartbeat.GetHeartbeats | calamari-common/calamari_common/remote/mon_remote.py:505-587 | the server heartbeat holds the scanned services, the boot time and the version, and the clusters map holds the in-quorum clusters' status |
| Cli.CephArgv | calamari-common/calamari_common/remote/mon_remote.py:351-356 | `ceph`, then `--cluster <name>` when a name is given, then the caller's arguments |
| Cli.RbdArgv | calamari-common/calamari_common/remote/mon_remote.py:383-386 | `rbd`, then `--pool <name>` when a pool is given, then the caller's arguments |
| Cli.JoinSplit | calamari-common/calamari_common/remote/mon_remote.py:70 | `split(' ')` loses nothing: joining with spaces gives the text back |
| Cli.SplitJoin | calamari-common/calamari_common/remote/mon_remote.py:70 | splitting a space join of space-free words gives the words back |
| Cli.CephVersion | calamari-common/calamari_common/remote/mon_remote.py:67-74 | the third space-separated word, or None when there are fewer than three |
| Cli.CephVersionOfBanner | calamari-common/calamari_common/remote/mon_remote.py:67-74 | `ceph version <release> ...` gives `<release>` |
| Cli.FrameLength | calamari-common/calamari_common/remote/mon_remote.py:117-130 | fewer than four header bytes raise the "no data" RuntimeError, which reaches callers as an AdminSocketError (a rados.Error) prefixed "exception: "; otherwise the big-endian unsigned 32-bit length |
| Cli.FrameLengthHeader | calamari-common/calamari_common/remote/mon_remote.py:120 | decoding the header of any 32-bit length gives that length back |
| Cli.HeaderFrameLength | calamari-common/calamari_common/remote/mon_remote.py:120 | every four-byte header is the header of the length it announces |
| Events.Dispatch | calamari-common/calamari_common/remote/mon_remote.py:968-989 | a cluster heartbeat fans out into one on_heartbeat call per cluster when the callback is passed, and none otherwise; every other event makes exactly one call when its callback is passed, and none otherwise |
| Events.DispatchAllAppend | calamari-common/calamari_common/remote/mon_remote.py:966-991 | draining two batches one after the other makes the calls of both, in order |
| Events.DispatchArgs | calamari-common/calamari_common/remote/mon_remote.py:973-989 | what one event hands to each of on_heartbeat, on_job, on_server_heartbeat and on_running_jobs: its own data, or nothing when the callback is None or the event is of another kind |
| Events.HeartbeatCalls | calamari-common/calamari_common/remote/mon_remote.py:973-975 | on_heartbeat, when passed, receives every cluster heartbeat of every event, in order, and otherwise nothing |
| Events.JobCalls | calamari-common/calamari_common/remote/mon_remote.py:978-984 | on_job, when passed, receives every job report in order, and otherwise nothing |
| Events.ServerHeartbeatCalls | calamari-common/calamari_common/remote/mon_remote.py:979-980 | on_server_heartbeat, when passed, receives every server heartbeat in order, and otherwise nothing |
| Events.RunningJobsCalls | calamari-common/calamari_common/remote/mon_remote.py:988-989 | on_running_jobs, when passed, receives the jid list of every RUNNING_JOBS event in order, and otherwise nothing |
| Events.CallCount | calamari-common/calamari_common/remote/mon_remote.py:968-989 | the number of calls is the heartbeat fan-out plus one per event of a kind whose callback was passed |
| Events.CallsCarryFqdn | calamari-common/calamari_common/remote/mon_remote.py:973-989 | every call other than on_job carries the subscriber's own fqdn |
| Events.ParseJob | calamari-common/calamari_common/remote/mon_remote.py:714-740 | run_job's name chain: accepted exactly for the six job names; otherwise `NotImplemented(cmd)` raises a TypeError |
| Events.JobNameRoundTrip | calamari-common/calamari_common/remote/mon_remote.py:714-740 | every job function is found under its own name |
| Events.Arguments | calamari-common/calamari_common/remote/mon_remote.py:714-737 | the arguments read for each job: `cluster_name`, `sync_type`, `since` or `fsid`, `cluster_name`, `commands` from a dict, exactly when the dict has them; otherwise `args[1]` for ceph_command (with a cluster name of None), `args[0]` for rbd_command and cluster_stats, and `args[0]`, `args[1]` for pool_stats, exactly when the list is long enough; the wrong container is a TypeError |
| Events.RunJob | calamari-common/calamari_common/remote/mon_remote.py:712-740 | an unknown name fails with TypeError; a known name with readable arguments gives exactly the named function's result, success or failure; unreadable arguments give their error |
| Events.JobSuccess | calamari-common/calamari_common/remote/mon_remote.py:743-755 | the JOB event reports success exactly when a known job with readable arguments returns a value, and then carries that value |
| Events.JobEvent | calamari-common/calamari_common/remote/mon_remote.py:743-760 | the JOB payload carries the fqdn, jid, function and arguments; `success` is whether the job raised, and `return` is its value or the traceback |
| Events.RunJobSync | calamari-common/calamari_common/remote/mon_remote.py:856-864 | the job's value, or Unavailable(cmd) for any exception |
| Bus.FreshJid | calamari-common/calamari_common/remote/mon_remote.py:803 | returns a jid the table does not hold |
| Bus.Generator.constructor | calamari-common/calamari_common/remote/mon_remote.py:766-770 | an empty job table and no subscribers |
| Bus.Generator.Register | calamari-common/calamari_common/remote/mon_remote.py:783-785 | adds a subscriber once, so no subscriber is ever listed twice |
| Bus.Generator.Emit | calamari-common/calamari_common/remote/mon_remote.py:787-790 | appends the event to the inbox of every listening subscriber; other inboxes and every listening count are unchanged |
| Bus.Generator.Complete | calamari-common/calamari_common/remote/mon_remote.py:792-794 | removes the job and emits its event; an unknown jid raises KeyError before anything is emitted |
| Bus.Generator.JobIds | calamari-common/calamari_common/remote/mon_remote.py:797 | the table's jids, each once |
| Bus.Generator.RunningJobs | calamari-common/calamari_common/remote/mon_remote.py:796-797 | emits the jids of exactly the jobs in the table |
| Bus.Generator.RunJob | calamari-common/calamari_common/remote/mon_remote.py:799-805 | a foreign fqdn raises Unavailable and leaves the table unchanged; otherwise the job goes in under a fresh jid, which is returned |
| Bus.Generator.RunJobThread | calamari-common/calamari_common/remote/mon_remote.py:743-760 | runs the job, removes it from the table, and emits the JOB event to every listening subscriber |
| Bus.Generator.HeartbeatRound | calamari-common/calamari_common/remote/mon_remote.py:810-816 | one round emits the server heartbeat, then the cluster heartbeat, as a list of exactly that dict's items, when the dict has an entry |
| Bus.ItemsOf | calamari-common/calamari_common/remote/mon_remote.py:977 | `iteritems()` yields every entry of the dict, each key once, with its own value |
| Bus.ItemsEmpty | calamari-common/calamari_common/remote/mon_remote.py:815-816 | the item list is empty exactly when the dict is |
| Bus.Subscriber.constructor | calamari-common/calamari_common/remote/mon_remote.py:830-851 | a new subscriber is not listening, has an empty inbox and is registered with the generator |
| Bus.Subscriber.Put | calamari-common/calamari_common/remote/mon_remote.py:853-854 | the event goes to the tail of the inbox |
| Bus.Subscriber.Subscribe | calamari-common/calamari_common/remote/mon_remote.py:966-967 | the listening count goes up by one and the inbox is unchanged |
| Bus.Subscriber.TakeOne | calamari-common/calamari_common/remote/mon_remote.py:969-989 | takes the head of the inbox and makes exactly its dispatch calls |
| Bus.Subscriber.Unsubscribe | calamari-common/calamari_common/remote/mon_remote.py:991 | the listening count goes down by one and the inbox is unchanged |
| Bus.Subscriber.Listen | calamari-common/calamari_common/remote/mon_remote.py:952-991 | takes n events from the head of the inbox and makes exactly their dispatch calls, in order; the listening count ends where it started when no callback raises |
| Bus.ListenDuringEmit | calamari-common/calamari_common/remote/mon_remote.py:787-790 | an event emitted while a subscriber listens reaches its inbox and is dispatched by it, and every other subscriber gets it exactly when it is listening |
| Bus.Subscriber.RunJob | calamari-common/calamari_common/remote/mon_remote.py:866-874 | hands the job to the generator, with the generator's contract |
| Bus.Subscriber.RemoteMetadata | calamari-common/calamari_common/remote/mon_remote.py:883-897 | a request for exactly this host gets its hostname; otherwise every fqdn asked for maps to an empty dict, and only those |

## Left out

- The cluster client: `ClusterHandle`, `json_command` and its timeout. Each reply is a parameter, `Rados.Ask` or `Rados.Step`. The same goes for `crushtool` (`transform_crushmap`), the admin-socket I/O of `admin_socket` and `_get_config`, and the subprocesses of `ceph_command` and `rbd_command`. Only their argv is modelled.
- `md5` and `msgpack.packb` are parameters (`hash`, `pack`), because the model states only where each digest's input comes from.
- The admin socket's `get_command_descriptions` exchange and the payload read loop. Only the 4-byte length header is modelled, without socket reads.
- `uuid.uuid4`'s random jid becomes `Bus.FreshJid`, which returns one particular jid the table does not hold; `socket.getfqdn` and `gethostname` become constructor parameters.
- The `weakref` to the process-wide `_generator`. The generator is passed to the Subscriber constructor instead; a global holds it, so the reference is never dead. `MonRemote.register`'s second call is a no-op and is left out.
- gevent concurrency: greenlets, `monkey.patch_all`, the `_complete` Event, the one-second `Queue.get` timeout and `_run`'s wait. `_run` is modelled one round at a time (`HeartbeatRound`). `listen`'s completion is modelled as the number `n` of events it takes. Events that arrive while it listens are modelled by running its steps (`Subscribe`, `TakeOne`, `Unsubscribe`) between emits, as `ListenDuringEmit` does; a scheduler interleaving arbitrary greenlets is not modelled.
- `get_boot_time` (`/proc/stat`) is a parameter. Also left out: the `rados is None` branch of `get_heartbeats`, the selftests, the log helpers (`list_logs`, `tail`, `_resolve`, `_is_log_file`), the bodies of `cluster_stats` and `pool_stats` (foreign work through `JobFunctions`), and the `NotImplementedError` and auth or cancel stubs.
- Dict iteration order: the order of the socket glob is an input sequence, and the order of cluster heartbeat items (`ItemsOf`) and of `_jobs.keys()` (`JobIds`) is a `:|` choice.
- The PG dump reaches `get_cluster_object` and `cluster_status` as a parameter (`Fetched.pgs`, `Env.pgsOf`), already as typed records.
- PgSummary.ParseInt: reads only ASCII digits and the six ASCII white-space characters. Python 2's `int()` on the `unicode` text `json.loads` returns also accepts other Unicode decimal digits (such as U+0663) and other Unicode white space (such as U+00A0 or U+001C), which the model rejects with ValueError, because the Unicode character database is not modelled.
- Events.Arguments: a positional read on a value that is not a list is a TypeError. Python raises KeyError for a dict, which reaches `run_job_thread` as an exception all the same, and reads one character of a string, which the model does not.
- Heartbeat.InQuorum: a `quorum` that is not a list fails with TypeError; Python's `in` would also search the keys of a dict or the text of a string.
- Python's dynamic typing beyond JSON access: a non-list `acting` or a non-string `pgid` is not modelled.
- `service_status`'s `assert SRC_DIR` before the vstart pattern is taken to pass.
- `$` in the patterns also matches before one trailing newline. The shape lemmas allow a base name ending in "asok\n".
- `admin_socket` never returns None, so `service_status`'s `is not None` test on the version answer is dead. The model always reads the version.
- Rados.RadosCommand: the error text for undecodable output omits the repr of the argument dict that the source appends.
- Rados.RadosCommands: `argdict['format'] = 'json'` changes the caller's dicts in place. Values are immutable here, so the model sends the updated copy and does not show the change to the caller.
- Events.ParseJob: `raise NotImplemented(cmd)` is modelled as the TypeError it causes, and the text of that error is not modelled.
- Bus.Generator.RunJob: the `Unavailable()` of a foreign fqdn carries the empty text.
- Bus.Subscriber.Listen: the `fsid` parameter is shadowed by the loop variable and never filters anything, so it is left out.
- The pg_summary digest's dependence on record order: `msgpack.packb` writes each dict in CPython 2's iteration order, which can depend on insertion order when keys share a hash slot, so reordering the PG dump can change the digest. `pack` is given the summary as a value and cannot express this. The model therefore proves order independence only for the summary itself (`PgSummary.ReduceOrderFree`), not for the pg_summary version.
- Bus.Subscriber.Listen: callbacks are modelled only as passed or not, and cannot raise. In the source a raising callback escapes `listen` with no try/finally (:966-991), leaving `subscribed` incremented, so the subscriber keeps receiving emits; the model's promise that the count is restored holds only for callbacks that return.
- ClusterObject.ClusterStatus: the `versions` dict is keyed by the sync-type enumeration; the key text of each entry is `Name(t)`.
- ClusterObject.HeartbeatVersionsMatchObjects: stated only for the sync types whose heartbeat version is read by the same query as `get_cluster_object`. For `mon_map`, `osd_map` and `mds_map`, the heartbeat reads the epochs from `status` while `get_cluster_object` reads the dumps, so the two may differ.
