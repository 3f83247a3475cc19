/** Fetching one synced cluster object (get_cluster_object) and the map
    versions summary (cluster_status).  The cluster is an environment: the
    reply it gives each json_command request, the crushtool decompilation,
    the admin-socket config text, and the digest functions. */
module ClusterObject {
  import opened Wrappers
  import opened Json
  import opened PgSummary
  import Rados

  /** The objects the agent can sync, in the order SYNC_TYPES lists them. */
  datatype SyncType = MonStatus | QuorumStatus | MonMap | OsdMap | MdsMap | PgSummaryMap | Health | Config

  const SyncTypeNames: seq<string> :=
    ["mon_status", "quorum_status", "mon_map", "osd_map", "mds_map", "pg_summary", "health", "config"]

  const AllSyncTypes: set<SyncType> := {MonStatus, QuorumStatus, MonMap, OsdMap, MdsMap, PgSummaryMap, Health, Config}

  function Name(t: SyncType): string {
    match t
    case MonStatus => "mon_status"
    case QuorumStatus => "quorum_status"
    case MonMap => "mon_map"
    case OsdMap => "osd_map"
    case MdsMap => "mds_map"
    case PgSummaryMap => "pg_summary"
    case Health => "health"
    case Config => "config"
  }

  /** `assert sync_type in SYNC_TYPES`. */
  function ParseSyncType(name: string): (r: Result<SyncType, Error>)
    ensures r.Success? <==> name in SyncTypeNames
    ensures r.Success? ==> Name(r.value) == name
    ensures r.Failure? ==> r.error == AssertionError
  {
    if name == "mon_status" then Success(MonStatus)
    else if name == "quorum_status" then Success(QuorumStatus)
    else if name == "mon_map" then Success(MonMap)
    else if name == "osd_map" then Success(OsdMap)
    else if name == "mds_map" then Success(MdsMap)
    else if name == "pg_summary" then Success(PgSummaryMap)
    else if name == "health" then Success(Health)
    else if name == "config" then Success(Config)
    else Failure(AssertionError)
  }

  /** Every sync type is accepted under its own name, and no two share one. */
  lemma SyncTypeNamesClosed(t: SyncType, u: SyncType)
    ensures Name(t) in SyncTypeNames && ParseSyncType(Name(t)) == Success(t)
    ensures Name(t) == Name(u) ==> t == u
  {
  }

  /** The environment: json_command replies, crushtool decompilation, the
      config text _get_config returns (or the AdminSocketError, a
      rados.Error, it raises when no mon socket is found or the socket
      fails) with its decoding, how a decoded PG dump reads as PG records,
      and the MD5 and msgpack functions.  `pack` is given the summary as a
      value: the order msgpack writes its dicts in is not modelled. */
  datatype Env = Env(ask: Rados.Ask, decompile: string -> Rados.ToolRun,
                     config: Result<string, Error>, configDoc: Option<Value>,
                     pgsOf: Value -> seq<PgRecord>,
                     hash: string -> string, pack: Summary -> string)

  /** The main query get_cluster_object submits for a sync type other than
      config. */
  function MainQuery(t: SyncType): Rados.Request
    requires t != Config
  {
    match t
    case MonStatus => Rados.CommandRequest("mon_status", map[])
    case QuorumStatus => Rados.CommandRequest("quorum_status", map[])
    case MonMap => Rados.CommandRequest("mon dump", map[])
    case OsdMap => Rados.CommandRequest("osd dump", map[])
    case MdsMap => Rados.CommandRequest("mds dump", map[])
    case PgSummaryMap => Rados.CommandRequest("pg dump", map["dumpcontents" := List([Str("pgs_brief")])])
    case Health => Rados.CommandRequest("health", map["detail" := Str("")])
  }

  // ---------------------------------------------------------------------
  // Version rule
  // ---------------------------------------------------------------------

  /** What a version is computed from: the raw text of the main query (or of
      the config), its decoded document and the PG records of that document. */
  datatype Fetched = Fetched(raw: string, doc: Value, pgs: seq<PgRecord>)

  /** The key holding the epoch of an epoch-versioned object. */
  function EpochKey(t: SyncType): string {
    if t == MonStatus || t == QuorumStatus then "election_epoch" else "epoch"
  }

  predicate EpochVersioned(t: SyncType) {
    t == MonStatus || t == QuorumStatus || t == MonMap || t == OsdMap || t == MdsMap
  }

  /** The version of a synced object: the election epoch of the mon and quorum
      status, the epoch of the mon, OSD and MDS maps, the digest of the
      packed reduced summary for pg_summary, and the digest of the raw text
      for health and config. */
  function VersionOf(t: SyncType, f: Fetched, hash: string -> string, pack: Summary -> string): (r: Result<Value, Error>)
    ensures (t == MonStatus || t == QuorumStatus) ==> r == Field(f.doc, "election_epoch")
    ensures (t == MonMap || t == OsdMap || t == MdsMap) ==> r == Field(f.doc, "epoch")
    ensures t == PgSummaryMap ==> (r.Success? <==> Reduce(f.pgs).Success?)
    ensures t == PgSummaryMap && r.Success? ==> r.value == Str(hash(pack(Reduce(f.pgs).value)))
    ensures (t == Health || t == Config) ==> r == Success(Str(hash(f.raw)))
  {
    if EpochVersioned(t) then Field(f.doc, EpochKey(t))
    else if t == PgSummaryMap then
      var summary :- Reduce(f.pgs);
      Success(Str(hash(pack(summary))))
    else Success(Str(hash(f.raw)))
  }

  /** An epoch-versioned object's version reads nothing of its document but
      the epoch: changing any other field leaves it unchanged. */
  lemma EpochVersionIgnoresRest(t: SyncType, f: Fetched, key: string, x: Value, hash: string -> string, pack: Summary -> string)
    requires EpochVersioned(t) && f.doc.Object? && key != EpochKey(t)
    ensures VersionOf(t, f.(doc := Object(f.doc.fields[key := x])), hash, pack) == VersionOf(t, f, hash, pack)
  {
  }

  /** A digest-versioned object's version depends on its raw text alone. */
  lemma DigestVersionReadsRawOnly(t: SyncType, f: Fetched, g: Fetched, hash: string -> string, pack: Summary -> string)
    requires (t == Health || t == Config) && f.raw == g.raw
    ensures VersionOf(t, f, hash, pack) == VersionOf(t, g, hash, pack)
  {
  }

  // ---------------------------------------------------------------------
  // osd_metadata
  // ---------------------------------------------------------------------

  /** The metadata query for one OSD id (its argdict updated with the main
      query's format=json). */
  function MetadataQuery(id: Value): Rados.Request {
    Rados.Request("osd metadata", map["id" := id, "format" := Str("json")], "")
  }

  /** What one entry of data['osds'] adds to osd_metadata: nothing when its
      metadata query fails, otherwise the decoded metadata tagged with the id.
      A missing 'osd' key, undecodable metadata or metadata that is not a dict
      raises. */
  function MetadataEntry(entry: Value, ask: Rados.Ask): Result<seq<Value>, Error> {
    var id :- Field(entry, "osd");
    var reply := ask(MetadataQuery(id));
    if reply.ret != 0 then Success([])
    else
      var meta :- Loads(reply.outbuf, reply.decoded);
      var tagged :- SetItem(meta, "osd", id);
      Success([tagged])
  }

  /** osd_metadata for a list of OSD entries; the first exception escapes. */
  function OsdMetadata(osds: seq<Value>, ask: Rados.Ask): Result<seq<Value>, Error> {
    if osds == [] then Success([])
    else
      var before :- OsdMetadata(osds[..|osds| - 1], ask);
      var last :- MetadataEntry(osds[|osds| - 1], ask);
      Success(before + last)
  }

  /** The osd_metadata loop. */
  method CollectOsdMetadata(osds: seq<Value>, ask: Rados.Ask) returns (r: Result<seq<Value>, Error>)
    ensures r == OsdMetadata(osds, ask)
  {
    var metadata: seq<Value> := [];
    var i := 0;
    while i < |osds|
      invariant 0 <= i <= |osds|
      invariant OsdMetadata(osds[..i], ask) == Success(metadata)
    {
      OsdMetadataStep(osds, ask, i);
      ghost var before := metadata;
      var found := Field(osds[i], "osd");
      if found.Failure? {
        OsdMetadataFailurePersists(osds, ask, i + 1);
        return Failure(found.error);
      }
      var id := found.value;
      var reply := ask(MetadataQuery(id));
      if reply.ret == 0 {
        if reply.decoded.None? {
          OsdMetadataFailurePersists(osds, ask, i + 1);
          return Failure(ValueError(reply.outbuf));
        }
        var meta := reply.decoded.value;
        if !meta.Object? {
          OsdMetadataFailurePersists(osds, ask, i + 1);
          return Failure(TypeError);
        }
        assert MetadataEntry(osds[i], ask) == Success([Object(meta.fields["osd" := id])]);
        metadata := metadata + [Object(meta.fields["osd" := id])];
        assert OsdMetadata(osds[..i + 1], ask) == Success(metadata);
      } else {
        assert MetadataEntry(osds[i], ask) == Success([]);
        assert OsdMetadata(osds[..i + 1], ask) == Success(before + []);
        assert before + [] == metadata;
      }
      i := i + 1;
    }
    assert osds[..i] == osds;
    r := Success(metadata);
  }

  /** OsdMetadata over one more entry. */
  lemma OsdMetadataStep(osds: seq<Value>, ask: Rados.Ask, i: nat)
    requires i < |osds|
    ensures OsdMetadata(osds[..i + 1], ask) ==
            match OsdMetadata(osds[..i], ask)
            case Failure(e) => Failure(e)
            case Success(before) =>
              match MetadataEntry(osds[i], ask)
              case Failure(e) => Failure(e)
              case Success(last) => Success(before + last)
  {
    assert osds[..i + 1][..i] == osds[..i];
  }

  /** Once the loop has raised, later entries do not matter. */
  lemma {:induction false} OsdMetadataFailurePersists(osds: seq<Value>, ask: Rados.Ask, k: nat)
    requires k <= |osds| && OsdMetadata(osds[..k], ask).Failure?
    ensures OsdMetadata(osds, ask) == OsdMetadata(osds[..k], ask)
    decreases |osds| - k
  {
    if k < |osds| {
      OsdMetadataStep(osds, ask, k);
      OsdMetadataFailurePersists(osds, ask, k + 1);
    } else {
      assert osds[..k] == osds;
    }
  }

  /** The entry's id, and its metadata query succeeded. */
  predicate Answered(entry: Value, ask: Rados.Ask) {
    Field(entry, "osd").Success? && ask(MetadataQuery(Field(entry, "osd").value)).ret == 0
  }

  /** `m` is the entry's decoded metadata with 'osd' set to the entry's id. */
  predicate TaggedFor(m: Value, entry: Value, ask: Rados.Ask) {
    Field(entry, "osd").Success? &&
    var id := Field(entry, "osd").value;
    var reply := ask(MetadataQuery(id));
    reply.decoded.Some? && reply.decoded.value.Object? &&
    m == Object(reply.decoded.value.fields["osd" := id])
  }

  /** `ms` lists, at increasing positions `ix` of `osds`, exactly the entries
      that were answered, each as its tagged metadata. */
  predicate KeptAt(osds: seq<Value>, ask: Rados.Ask, ix: seq<int>, ms: seq<Value>) {
    |ix| == |ms| && AnsweredAt(osds, ask, ix) && TaggedAt(osds, ask, ix, ms)
  }

  /** `ix` lists, in increasing order, the positions of the answered entries. */
  predicate AnsweredAt(osds: seq<Value>, ask: Rados.Ask, ix: seq<int>) {
    && (forall k :: 0 <= k < |ix| ==> 0 <= ix[k] < |osds|)
    && (forall k, l :: 0 <= k < l < |ix| ==> ix[k] < ix[l])
    && (forall i :: 0 <= i < |osds| ==> (i in ix <==> Answered(osds[i], ask)))
  }

  /** `ms[k]` is the tagged metadata of the entry at `ix[k]`. */
  predicate TaggedAt(osds: seq<Value>, ask: Rados.Ask, ix: seq<int>, ms: seq<Value>)
    requires |ix| == |ms| && forall k :: 0 <= k < |ix| ==> 0 <= ix[k] < |osds|
  {
    forall k :: 0 <= k < |ix| ==> TaggedFor(ms[k], osds[ix[k]], ask)
  }

  /** What one entry contributes, when it raises nothing: its tagged metadata
      when it was answered, nothing otherwise. */
  lemma EntryShape(entry: Value, ask: Rados.Ask)
    requires MetadataEntry(entry, ask).Success?
    ensures Answered(entry, ask) ==>
              |MetadataEntry(entry, ask).value| == 1 && TaggedFor(MetadataEntry(entry, ask).value[0], entry, ask)
    ensures !Answered(entry, ask) ==> MetadataEntry(entry, ask).value == []
  {
  }

  /** AnsweredAt extends by one entry. */
  lemma AnsweredStep(osds: seq<Value>, ask: Rados.Ask, ix0: seq<int>)
    requires |osds| > 0 && AnsweredAt(osds[..|osds| - 1], ask, ix0)
    ensures AnsweredAt(osds, ask, if Answered(osds[|osds| - 1], ask) then ix0 + [|osds| - 1] else ix0)
  {
    var n := |osds| - 1;
    var ix := if Answered(osds[n], ask) then ix0 + [n] else ix0;
    assert forall i :: 0 <= i < n ==> osds[i] == osds[..n][i];
    forall i | 0 <= i < |osds|
      ensures i in ix <==> Answered(osds[i], ask)
    {
      if i < n {
        assert i in ix <==> i in ix0;
      } else {
        assert i !in ix0;
      }
    }
  }

  /** TaggedAt extends by one entry. */
  lemma TaggedStep(osds: seq<Value>, ask: Rados.Ask, ix0: seq<int>, before: seq<Value>, last: seq<Value>)
    requires |osds| > 0 && |ix0| == |before|
    requires forall k :: 0 <= k < |ix0| ==> 0 <= ix0[k] < |osds| - 1
    requires TaggedAt(osds[..|osds| - 1], ask, ix0, before)
    requires MetadataEntry(osds[|osds| - 1], ask) == Success(last)
    ensures var ix := if Answered(osds[|osds| - 1], ask) then ix0 + [|osds| - 1] else ix0;
      |ix| == |before + last| && TaggedAt(osds, ask, ix, before + last)
  {
    var n := |osds| - 1;
    EntryShape(osds[n], ask);
    var ix := if Answered(osds[n], ask) then ix0 + [n] else ix0;
    var ms := before + last;
    forall k | 0 <= k < |ix|
      ensures TaggedFor(ms[k], osds[ix[k]], ask)
    {
      if k < |ix0| {
        assert ms[k] == before[k] && osds[ix[k]] == osds[..n][ix0[k]];
      }
    }
  }

  /** A completed loop holds, in the order of `osds`, one entry per OSD whose
      metadata query returned 0, tagged with that OSD's id. */
  lemma {:induction false} OsdMetadataKept(osds: seq<Value>, ask: Rados.Ask)
    requires OsdMetadata(osds, ask).Success?
    ensures exists ix :: KeptAt(osds, ask, ix, OsdMetadata(osds, ask).value)
  {
    if osds == [] {
      assert KeptAt(osds, ask, [], []);
    } else {
      var n := |osds| - 1;
      OsdMetadataKept(osds[..n], ask);
      var before := OsdMetadata(osds[..n], ask).value;
      var ix0 :| KeptAt(osds[..n], ask, ix0, before);
      var last := MetadataEntry(osds[n], ask).value;
      assert OsdMetadata(osds, ask).value == before + last;
      AnsweredStep(osds, ask, ix0);
      TaggedStep(osds, ask, ix0, before, last);
      var ix := if Answered(osds[n], ask) then ix0 + [n] else ix0;
      assert KeptAt(osds, ask, ix, before + last);
    }
  }

  /** A failed metadata query never makes the loop raise: it raises exactly
      when some entry lacks its id, or is answered with metadata that is
      undecodable or not a dict. */
  lemma {:induction false} OsdMetadataFailsIff(osds: seq<Value>, ask: Rados.Ask)
    ensures OsdMetadata(osds, ask).Failure? <==>
            exists i :: 0 <= i < |osds| && MetadataEntry(osds[i], ask).Failure?
    ensures forall e :: MetadataEntry(e, ask).Failure? <==>
            Field(e, "osd").Failure? ||
            (Answered(e, ask) && !(ask(MetadataQuery(Field(e, "osd").value)).decoded.Some? &&
                                   ask(MetadataQuery(Field(e, "osd").value)).decoded.value.Object?))
  {
    if osds != [] {
      var n := |osds| - 1;
      OsdMetadataFailsIff(osds[..n], ask);
      assert forall i :: 0 <= i < n ==> osds[..n][i] == osds[i];
    }
  }

  /** Three OSDs whose second metadata query fails: the list holds the first
      and the third, tagged, and nothing is raised. */
  lemma SkipsUnansweredOsd(ask: Rados.Ask, m0: map<string, Value>, m2: map<string, Value>)
    requires ask(MetadataQuery(Int(0))) == Rados.Reply(0, "{}", Some(Object(m0)), "")
    requires ask(MetadataQuery(Int(1))).ret == -2
    requires ask(MetadataQuery(Int(2))) == Rados.Reply(0, "{}", Some(Object(m2)), "")
    ensures var osds := [Object(map["osd" := Int(0)]), Object(map["osd" := Int(1)]), Object(map["osd" := Int(2)])];
            OsdMetadata(osds, ask) == Success([Object(m0["osd" := Int(0)]), Object(m2["osd" := Int(2)])])
  {
    var osds := [Object(map["osd" := Int(0)]), Object(map["osd" := Int(1)]), Object(map["osd" := Int(2)])];
    var t0 := Object(m0["osd" := Int(0)]);
    var t2 := Object(m2["osd" := Int(2)]);
    assert osds[..0] == [] && osds[..3] == osds;
    assert MetadataEntry(osds[0], ask) == Success([t0]);
    OsdMetadataStep(osds, ask, 0);
    assert [] + [t0] == [t0];
    assert MetadataEntry(osds[1], ask) == Success([]);
    OsdMetadataStep(osds, ask, 1);
    assert [t0] + [] == [t0];
    assert MetadataEntry(osds[2], ask) == Success([t2]);
    OsdMetadataStep(osds, ask, 2);
    assert [t0] + [t2] == [t0, t2];
  }

  // ---------------------------------------------------------------------
  // get_cluster_object
  // ---------------------------------------------------------------------

  /** The data of a synced object: a decoded document, or the reduced PG
      summary for pg_summary. */
  datatype Data = Doc(doc: Value) | Reduced(summary: Summary)

  /** The dict get_cluster_object returns. */
  datatype SyncedObject = SyncedObject(syncType: string, fsid: Value, version: Value, data: Data)

  /** A json_command reply the source asserts succeeded, decoded. */
  function Checked(reply: Rados.Reply): Result<Value, Error> {
    if reply.ret != 0 then Failure(AssertionError) else Loads(reply.outbuf, reply.decoded)
  }

  /** The `osd tree` query for the epoch of the OSD dump. */
  function TreeQuery(epoch: Value): Rados.Request {
    Rados.Request("osd tree", map["format" := Str("json"), "epoch" := epoch], "")
  }

  /** The `osd crush dump` query, which takes no epoch. */
  const CrushQuery: Rados.Request := Rados.Request("osd crush dump", map["format" := Str("json")], "")

  /** The `osd getcrushmap` query for the epoch of the OSD dump. */
  function CrushMapQuery(epoch: Value): Rados.Request {
    Rados.Request("osd getcrushmap", map["epoch" := epoch], "")
  }

  /** The synthesized full OSD map: the OSD dump with its tree for the same
      epoch, the crush dump, the decompiled crush map and the OSD metadata. */
  function FullOsdMap(data: Value, epoch: Value, env: Env): (r: Result<Value, Error>)
    ensures r.Success? ==> && env.ask(TreeQuery(epoch)).ret == 0 && env.ask(CrushQuery).ret == 0
                           && env.ask(CrushMapQuery(epoch)).ret == 0
                           && env.decompile(env.ask(CrushMapQuery(epoch)).outbuf).ret == 0
    ensures env.ask(TreeQuery(epoch)).ret != 0 ==> r == Failure(AssertionError)
    ensures Checked(env.ask(TreeQuery(epoch))).Success? && !data.Object? ==> r == Failure(TypeError)
  {
    var tree :- Checked(env.ask(TreeQuery(epoch)));
    var d1 :- SetItem(data, "tree", tree);
    var crush :- Checked(env.ask(CrushQuery));
    var d2 := SetItem(d1, "crush", crush).value;
    var binary := env.ask(CrushMapQuery(epoch));
    if binary.ret != 0 then Failure(AssertionError)
    else
      var tool := env.decompile(binary.outbuf);
      if tool.ret != 0 then Failure(AssertionError)
      else
        var d3 :- SetItem(d2, "crush_map_text", Str(tool.stdout));
        var d4 :- SetItem(d3, "osd_metadata", List([]));
        var osds :- Field(d4, "osds");
        if !osds.List? then Failure(TypeError)
        else
          var metadata :- OsdMetadata(osds.items, env.ask);
          SetItem(d4, "osd_metadata", List(metadata))
  }

  /** The `status` command both get_cluster_object and cluster_status read
      the fsid from. */
  const StatusQuery: Rados.Request := Rados.CommandRequest("status", map[])

  /** status['fsid'] of the decoded `status` reply. */
  function StatusFsid(env: Env): (r: Result<Value, Error>)
    ensures var st := env.ask(StatusQuery);
      && (r.Success? <==> st.decoded.Some? && Field(st.decoded.value, "fsid").Success?)
      && (r.Success? ==> r.value == Field(st.decoded.value, "fsid").value)
      && (st.decoded.None? ==> r == Failure(ValueError(st.outbuf)))
  {
    var st := env.ask(StatusQuery);
    var status :- Loads(st.outbuf, st.decoded);
    Field(status, "fsid")
  }

  /** get_cluster_object(cluster_name, sync_type, since) against `env`. */
  function GetClusterObject(syncType: string, env: Env): (r: Result<SyncedObject, Error>)
    ensures syncType !in SyncTypeNames ==> r == Failure(AssertionError)
    ensures syncType in SyncTypeNames && StatusFsid(env).Failure? ==> r == Failure(StatusFsid(env).error)
    ensures syncType == "config" && StatusFsid(env).Success? && env.config.Failure? ==>
              r == Failure(env.config.error)
    ensures syncType in SyncTypeNames && syncType != "config" && StatusFsid(env).Success? ==>
              (env.ask(MainQuery(ParseSyncType(syncType).value)).ret != 0 ==> r == Failure(AssertionError))
    ensures r.Success? ==> r.value.syncType == syncType
  {
    var t :- ParseSyncType(syncType);
    var fsid :- StatusFsid(env);
    if t == Config then
      var raw :- env.config;
      var data :- Loads(raw, env.configDoc);
      Success(SyncedObject(syncType, fsid, Str(env.hash(raw)), Doc(data)))
    else
      var reply := env.ask(MainQuery(t));
      var doc :- Checked(reply);
      var version :- VersionOf(t, Fetched(reply.outbuf, doc, env.pgsOf(doc)), env.hash, env.pack);
      if t == PgSummaryMap then
        Success(SyncedObject(syncType, fsid, version, Reduced(Reduce(env.pgsOf(doc)).value)))
      else if t == OsdMap then
        var full :- FullOsdMap(doc, version, env);
        Success(SyncedObject(syncType, fsid, version, Doc(full)))
      else
        Success(SyncedObject(syncType, fsid, version, Doc(doc)))
  }

  /** An unknown sync type fails at the assertion, whatever the cluster. */
  lemma UnknownSyncTypeFails(syncType: string, env: Env)
    requires syncType !in SyncTypeNames
    ensures GetClusterObject(syncType, env) == Failure(AssertionError)
  {
  }

  /** A fetched object carries the requested type, the fsid of the status
      reply, the version the rule gives for the raw text of its main query
      (the config text for config), and its data: the decoded config, the
      reduced summary for pg_summary, the full map for osd_map, and the
      decoded main reply otherwise. */
  lemma GetClusterObjectVersion(syncType: string, env: Env)
    requires GetClusterObject(syncType, env).Success?
    ensures var obj := GetClusterObject(syncType, env).value;
      var t := ParseSyncType(syncType).value;
      var st := env.ask(StatusQuery);
      && obj.syncType == syncType
      && st.decoded.Some? && obj.fsid == Field(st.decoded.value, "fsid").value
      && (t == Config ==> env.config.Success? && env.configDoc.Some?
                          && obj.version == VersionOf(t, Fetched(env.config.value, Null, []), env.hash, env.pack).value
                          && obj.data == Doc(env.configDoc.value))
      && (t != Config ==>
            var reply := env.ask(MainQuery(t));
            && reply.ret == 0 && reply.decoded.Some?
            && var doc := reply.decoded.value;
            && obj.version == VersionOf(t, Fetched(reply.outbuf, doc, env.pgsOf(doc)), env.hash, env.pack).value
            && (t == PgSummaryMap ==> Reduce(env.pgsOf(doc)).Success? && obj.data == Reduced(Reduce(env.pgsOf(doc)).value))
            && (t == OsdMap ==> FullOsdMap(doc, obj.version, env).Success?
                                && obj.data == Doc(FullOsdMap(doc, obj.version, env).value))
            && (t != PgSummaryMap && t != OsdMap ==> obj.data == Doc(doc)))
  {
  }

  /** The keys FullOsdMap adds to the OSD dump. */
  const Synthesized: set<string> := {"tree", "crush", "crush_map_text", "osd_metadata"}

  /** The full OSD map keeps the dump's fields and adds the synthesized ones:
      'tree' and 'crush_map_text' read at the dump's own epoch, 'crush' the
      crush dump, and 'osd_metadata' what the metadata loop collects over
      'osds'. */
  lemma FullOsdMapShape(data: Value, epoch: Value, env: Env)
    requires FullOsdMap(data, epoch, env).Success?
    ensures var full := FullOsdMap(data, epoch, env).value;
      && data.Object? && "osds" in data.fields && data.fields["osds"].List?
      && full.Object?
      && full.fields.Keys == data.fields.Keys + Synthesized
      && (forall k :: k in data.fields && k !in Synthesized ==> full.fields[k] == data.fields[k])
      && Checked(env.ask(TreeQuery(epoch))).Success?
      && full.fields["tree"] == Checked(env.ask(TreeQuery(epoch))).value
      && Checked(env.ask(CrushQuery)).Success?
      && full.fields["crush"] == Checked(env.ask(CrushQuery)).value
      && full.fields["crush_map_text"] == Str(env.decompile(env.ask(CrushMapQuery(epoch)).outbuf).stdout)
      && OsdMetadata(data.fields["osds"].items, env.ask).Success?
      && full.fields["osd_metadata"] == List(OsdMetadata(data.fields["osds"].items, env.ask).value)
  {
  }

  /** A fetched OSD map is the OSD dump with its other fields kept and
      'osd_metadata' set to what the metadata loop collects over its 'osds'. */
  lemma OsdMapCarriesMetadata(env: Env)
    requires GetClusterObject("osd_map", env).Success?
    ensures var obj := GetClusterObject("osd_map", env).value;
      var dump := env.ask(MainQuery(OsdMap)).decoded.value;
      && dump.Object? && "osds" in dump.fields && dump.fields["osds"].List?
      && obj.data.Doc? && obj.data.doc.Object?
      && obj.data.doc.fields.Keys == dump.fields.Keys + Synthesized
      && (forall k :: k in dump.fields && k !in Synthesized ==> obj.data.doc.fields[k] == dump.fields[k])
      && OsdMetadata(dump.fields["osds"].items, env.ask).Success?
      && obj.data.doc.fields["osd_metadata"] == List(OsdMetadata(dump.fields["osds"].items, env.ask).value)
  {
    var reply := env.ask(MainQuery(OsdMap));
    var doc := reply.decoded.value;
    var version := VersionOf(OsdMap, Fetched(reply.outbuf, doc, env.pgsOf(doc)), env.hash, env.pack).value;
    assert GetClusterObject("osd_map", env).value.data == Doc(FullOsdMap(doc, version, env).value);
    FullOsdMapShape(doc, version, env);
  }

  // ---------------------------------------------------------------------
  // cluster_status
  // ---------------------------------------------------------------------

  /** status['monmap']['epoch'] read with .get: None when either is missing,
      an AttributeError when either is not a dict. */
  function MonEpoch(status: Value): (r: Result<Value, Error>)
    ensures r.Success? <==> status.Object? && ("monmap" in status.fields ==> status.fields["monmap"].Object?)
    ensures r.Failure? ==> r.error == AttributeError
    ensures status.Object? && "monmap" !in status.fields ==> r == Success(Null)
    ensures status.Object? && "monmap" in status.fields ==> r == GetOr(status.fields["monmap"], "epoch", Null)
  {
    var monmap :- GetOr(status, "monmap", EmptyObject);
    GetOr(monmap, "epoch", Null)
  }

  /** status['osdmap']['osdmap']['epoch'] read with .get. */
  function OsdEpoch(status: Value): (r: Result<Value, Error>)
    ensures !status.Object? ==> r == Failure(AttributeError)
    ensures status.Object? && "osdmap" !in status.fields ==> r == Success(Null)
    ensures status.Object? && "osdmap" in status.fields ==>
      var outer := status.fields["osdmap"];
      && (!outer.Object? ==> r == Failure(AttributeError))
      && (outer.Object? && "osdmap" !in outer.fields ==> r == Success(Null))
      && (outer.Object? && "osdmap" in outer.fields ==> r == GetOr(outer.fields["osdmap"], "epoch", Null))
  {
    var outer :- GetOr(status, "osdmap", EmptyObject);
    var inner :- GetOr(outer, "osdmap", EmptyObject);
    GetOr(inner, "epoch", Null)
  }

  /** The MDS epoch: from 'fsmap' when the cluster reports one (Jewel and
      later), else from 'mdsmap', else None. */
  function MdsEpoch(status: Value): (r: Result<Value, Error>)
    ensures !status.Object? ==> r == Failure(AttributeError)
    ensures status.Object? && "fsmap" in status.fields ==> r == GetOr(status.fields["fsmap"], "epoch", Null)
    ensures status.Object? && "fsmap" !in status.fields && "mdsmap" in status.fields ==>
              r == GetOr(status.fields["mdsmap"], "epoch", Null)
    ensures status.Object? && "fsmap" !in status.fields && "mdsmap" !in status.fields ==> r == Success(Null)
  {
    if !status.Object? then Failure(AttributeError)
    else
      var fallback := if "mdsmap" in status.fields then status.fields["mdsmap"] else EmptyObject;
      var mdsmap := if "fsmap" in status.fields then status.fields["fsmap"] else fallback;
      GetOr(mdsmap, "epoch", Null)
  }

  /** What cluster_status reads off the `status` reply: the fsid, then the
      monitor, OSD and MDS map epochs, in that order. */
  datatype StatusFacts = StatusFacts(fsid: Value, monEpoch: Value, osdEpoch: Value, mdsEpoch: Value)

  function ReadStatus(status: Value): (r: Result<StatusFacts, Error>)
    ensures r.Success? <==> Field(status, "fsid").Success? && MonEpoch(status).Success?
                            && OsdEpoch(status).Success? && MdsEpoch(status).Success?
    ensures r.Success? ==> r.value == StatusFacts(Field(status, "fsid").value, MonEpoch(status).value,
                                                  OsdEpoch(status).value, MdsEpoch(status).value)
  {
    var fsid :- Field(status, "fsid");
    var monEpoch :- MonEpoch(status);
    var osdEpoch :- OsdEpoch(status);
    var mdsEpoch :- MdsEpoch(status);
    Success(StatusFacts(fsid, monEpoch, osdEpoch, mdsEpoch))
  }

  /** md5(msgpack.packb(pg_summary(pgs_brief))) of the brief PG dump. */
  function PgDigest(env: Env): (r: Result<string, Error>)
    ensures var d := Rados.RadosDoc(env.ask(MainQuery(PgSummaryMap)));
      r.Success? <==> d.Success? && Reduce(env.pgsOf(d.value)).Success?
    ensures var d := Rados.RadosDoc(env.ask(MainQuery(PgSummaryMap)));
      r.Success? ==> r.value == env.hash(env.pack(Reduce(env.pgsOf(d.value)).value))
  {
    var pgsBrief :- Rados.RadosDoc(env.ask(MainQuery(PgSummaryMap)));
    var summary :- Reduce(env.pgsOf(pgsBrief));
    Success(env.hash(env.pack(summary)))
  }

  /** The dict cluster_status returns; its 'versions' dict is keyed here by
      sync type, the key text of `t` being Name(t). */
  datatype ClusterReport = ClusterReport(name: string, fsid: Value, versions: map<SyncType, Value>)

  /** cluster_status(cluster_handle, cluster_name) against `env`. */
  function ClusterStatus(name: string, env: Env): (r: Result<ClusterReport, Error>)
    ensures r.Success? ==> r.value.name == name && r.value.versions.Keys == AllSyncTypes
    ensures env.config.Failure? ==> r.Failure?
  {
    var monStatus :- Rados.RadosDoc(env.ask(MainQuery(MonStatus)));
    var quorumStatus :- Rados.RadosDoc(env.ask(MainQuery(QuorumStatus)));
    var status :- Rados.RadosDoc(env.ask(StatusQuery));
    var facts :- ReadStatus(status);
    var health :- Rados.RadosText(env.ask(MainQuery(Health)));
    var pgDigest :- PgDigest(env);
    var config :- env.config;
    var monElection :- Field(monStatus, "election_epoch");
    var quorumElection :- Field(quorumStatus, "election_epoch");
    Success(ClusterReport(name, facts.fsid,
      Versions(monElection, quorumElection, facts, pgDigest, env.hash(health), env.hash(config))))
  }

  /** The 'versions' dict of cluster_status, one entry per sync type. */
  function Versions(monElection: Value, quorumElection: Value, facts: StatusFacts,
                    pgDigest: string, healthDigest: string, configDigest: string): (v: map<SyncType, Value>)
    ensures v.Keys == AllSyncTypes
    ensures v[MonStatus] == monElection && v[QuorumStatus] == quorumElection
    ensures v[MonMap] == facts.monEpoch && v[OsdMap] == facts.osdEpoch && v[MdsMap] == facts.mdsEpoch
    ensures v[PgSummaryMap] == Str(pgDigest) && v[Health] == Str(healthDigest) && v[Config] == Str(configDigest)
  {
    map[
      MonStatus := monElection,
      QuorumStatus := quorumElection,
      MonMap := facts.monEpoch,
      OsdMap := facts.osdEpoch,
      MdsMap := facts.mdsEpoch,
      PgSummaryMap := Str(pgDigest),
      Health := Str(healthDigest),
      Config := Str(configDigest)]
  }

  /** Where each version cluster_status reports comes from. */
  lemma ClusterStatusVersions(name: string, env: Env)
    requires ClusterStatus(name, env).Success?
    ensures var d := Rados.RadosDoc(env.ask(MainQuery(MonStatus)));
      d.Success? && Field(d.value, "election_epoch") == Success(ClusterStatus(name, env).value.versions[MonStatus])
    ensures var d := Rados.RadosDoc(env.ask(MainQuery(QuorumStatus)));
      d.Success? && Field(d.value, "election_epoch") == Success(ClusterStatus(name, env).value.versions[QuorumStatus])
    ensures var health := env.ask(MainQuery(Health));
      health.ret == 0 && ClusterStatus(name, env).value.versions[Health] == Str(env.hash(health.outbuf))
    ensures var d := Rados.RadosDoc(env.ask(MainQuery(PgSummaryMap)));
      && d.Success? && Reduce(env.pgsOf(d.value)).Success?
      && ClusterStatus(name, env).value.versions[PgSummaryMap] == Str(env.hash(env.pack(Reduce(env.pgsOf(d.value)).value)))
    ensures env.config.Success? && ClusterStatus(name, env).value.versions[Config] == Str(env.hash(env.config.value))
    ensures var d := Rados.RadosDoc(env.ask(StatusQuery));
      && d.Success? && Field(d.value, "fsid") == Success(ClusterStatus(name, env).value.fsid)
      && MonEpoch(d.value) == Success(ClusterStatus(name, env).value.versions[MonMap])
      && OsdEpoch(d.value) == Success(ClusterStatus(name, env).value.versions[OsdMap])
      && MdsEpoch(d.value) == Success(ClusterStatus(name, env).value.versions[MdsMap])
  {
    assert Rados.RadosText(env.ask(MainQuery(Health))).Success?;
  }

  /** The versions a heartbeat reports agree with the versions of the objects
      fetched from the same cluster state, for every object whose version
      cluster_status computes from the same query. */
  lemma HeartbeatVersionsMatchObjects(name: string, t: SyncType, env: Env)
    requires forall q :: Rados.WellFormed(env.ask(q))
    requires t in {MonStatus, QuorumStatus, PgSummaryMap, Health, Config}
    requires ClusterStatus(name, env).Success? && GetClusterObject(Name(t), env).Success?
    ensures ClusterStatus(name, env).value.versions[t] == GetClusterObject(Name(t), env).value.version
  {
    SyncTypeNamesClosed(t, t);
    ClusterStatusVersions(name, env);
    GetClusterObjectVersion(Name(t), env);
    if t != Config {
      var reply := env.ask(MainQuery(t));
      assert Rados.WellFormed(reply);
      DecodedDoc(reply);
    }
  }

  /** A well-formed reply that decoded is read by rados_command as its document. */
  lemma DecodedDoc(reply: Rados.Reply)
    requires Rados.WellFormed(reply) && reply.ret == 0 && reply.decoded.Some?
    ensures Rados.RadosDoc(reply) == Success(reply.decoded.value)
  {
  }

}
