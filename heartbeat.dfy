/** Service discovery for the heartbeats: reading a service's cluster, type
    and id off its admin-socket file name (service_status), and collecting
    the server and cluster heartbeats from the sockets found
    (get_heartbeats).  The admin-socket answers, `ceph --version`, the boot
    time and the per-cluster status are given to the model. */
module Heartbeat {
  import opened Wrappers
  import opened Json
  import PgSummary
  import Cli

  // ---------------------------------------------------------------------
  // Socket file names
  // ---------------------------------------------------------------------

  /** os.path.basename: the text after the last '/'. */
  function Basename(path: string): (b: string)
    ensures |b| <= |path| && b == path[|path| - |b|..] && '/' !in b
    ensures |b| < |path| ==> path[|path| - |b| - 1] == '/'
  {
    if path == [] || path[|path| - 1] == '/' then []
    else Basename(path[..|path| - 1]) + [path[|path| - 1]]
  }

  /** The three names a socket file name carries. */
  datatype SocketName = SocketName(cluster: string, serviceType: string, id: string)

  /** No newline in `s`: Python's `.` does not match one. */
  predicate OneLine(s: string) {
    forall k :: 0 <= k < |s| ==> s[k] != '\n'
  }

  /** `r` is `stem`, one character other than a newline, then "asok" and
      possibly one final newline: what `<stem>.asok$` matches. */
  predicate Covers(r: string, stem: string) {
    && |r| >= |stem| + 5 && r[..|stem|] == stem && r[|stem|] != '\n'
    && (r[|stem| + 1..] == "asok" || r[|stem| + 1..] == "asok\n")
  }

  /** `(.*).asok$` matched against all of `r` (Python's `.` stops at a
      newline; `$` also matches before one final newline): the group. */
  function AsokTail(r: string): (g: Option<string>)
    ensures g.Some? ==>
      OneLine(g.value) && Covers(r, g.value)
  {
    var body := if |r| > 0 && r[|r| - 1] == '\n' then r[..|r| - 1] else r;
    if |body| >= 5 && body[|body| - 4..] == "asok" && body[|body| - 5] != '\n' && OneLine(body[..|body| - 5])
    then Some(body[..|body| - 5])
    else None
  }

  /** What follows the dash in `^(.*)-([^\.]*)\.(.*).asok$`: the dot-free
      type up to the first dot, then the id. */
  function AfterDash(r: string): Option<(string, string)> {
    var t := PgSummary.BeforeFirstDot(r);
    if t == r then None
    else
      match AsokTail(r[|t| + 1..])
      case None => None
      case Some(i) => Some((t, i))
  }

  /** A dash at `p` can close the first group of the primary pattern. */
  predicate DashAt(s: string, p: int) {
    0 <= p < |s| && s[p] == '-' && OneLine(s[..p]) && AfterDash(s[p + 1..]).Some?
  }

  /** The last position below `p` whose mark is set: a greedy `(.*)`
      backtracks from the right to the first place the rest matches. */
  function LastMark(marks: seq<bool>, p: int): (q: Option<int>)
    requires p <= |marks|
    decreases p
    ensures q.Some? ==> 0 <= q.value < p && marks[q.value] && forall k :: q.value < k < p ==> !marks[k]
    ensures q.None? ==> forall k :: 0 <= k < p ==> !marks[k]
  {
    if p <= 0 then None
    else if marks[p - 1] then Some(p - 1)
    else LastMark(marks, p - 1)
  }

  /** The search finds the set mark after which none is set. */
  lemma {:induction false} LastMarkIs(marks: seq<bool>, p: int, q: int)
    requires 0 <= q < p <= |marks| && marks[q] && forall k :: q < k < p ==> !marks[k]
    ensures LastMark(marks, p) == Some(q)
    decreases p
  {
    if q < p - 1 {
      LastMarkIs(marks, p - 1, q);
    }
  }

  /** The search finds nothing when no mark is set. */
  lemma {:induction false} LastMarkNone(marks: seq<bool>, p: int)
    requires p <= |marks| && forall k :: 0 <= k < p ==> !marks[k]
    ensures LastMark(marks, p).None?
    decreases p
  {
    if p > 0 {
      LastMarkNone(marks, p - 1);
    }
  }

  /** Where the primary pattern's first group can end. */
  function Dashes(s: string): (marks: seq<bool>)
    ensures |marks| == |s| && forall k :: 0 <= k < |s| ==> marks[k] == DashAt(s, k)
  {
    seq(|s|, k => DashAt(s, k))
  }

  /** The position the primary pattern's first group ends at. */
  function LastDash(s: string): Option<int> {
    LastMark(Dashes(s), |s|)
  }

  /** A dot at `p` can close the first group of the vstart pattern
      `^(.*)\.(.*).asok$`. */
  predicate DotAt(s: string, p: int) {
    0 <= p < |s| && s[p] == '.' && OneLine(s[..p]) && AsokTail(s[p + 1..]).Some?
  }

  /** Where the vstart pattern's first group can end. */
  function Dots(s: string): (marks: seq<bool>)
    ensures |marks| == |s| && forall k :: 0 <= k < |s| ==> marks[k] == DotAt(s, k)
  {
    seq(|s|, k => DotAt(s, k))
  }

  /** The position the vstart pattern's first group ends at. */
  function LastDot(s: string): Option<int> {
    LastMark(Dots(s), |s|)
  }

  /** The primary pattern's groups, when it matches. */
  function PrimaryMatch(s: string): Option<SocketName> {
    match LastDash(s)
    case None => None
    case Some(p) =>
      var groups := AfterDash(s[p + 1..]).value;
      Some(SocketName(s[..p], groups.0, groups.1))
  }

  /** The names service_status reads off a socket's base name: the primary
      pattern's groups; failing that, cluster "ceph" with the vstart
      pattern's groups; failing both, `.groups()` on None. */
  function ParseSocketName(b: string): (r: Result<SocketName, Error>)
    ensures r.Failure? ==> r.error == AttributeError
    ensures r.Success? && PrimaryMatch(b).Some? ==> '.' !in r.value.serviceType && Covers(b, ServiceName(r.value))
    ensures r.Success? && PrimaryMatch(b).None? ==>
              r.value.cluster == "ceph" && Covers(b, r.value.serviceType + "." + r.value.id)
  {
    match PrimaryMatch(b)
    case Some(n) =>
      DashShape(b, LastDash(b).value);
      Success(n)
    case None =>
      match LastDot(b)
      case None => Failure(AttributeError)
      case Some(p) =>
        CoversAfter(b, p, AsokTail(b[p + 1..]).value);
        Success(SocketName("ceph", b[..p], AsokTail(b[p + 1..]).value))
  }

  /** "%s-%s.%s" % (cluster, type, id). */
  function ServiceName(n: SocketName): string {
    n.cluster + "-" + n.serviceType + "." + n.id
  }

  /** The name a service's admin socket file goes by. */
  function SocketFile(n: SocketName): string {
    ServiceName(n) + ".asok"
  }

  /** A prefix known piece by piece. */
  lemma Pieces(s: string, a: string, c: char, b: string)
    requires |a| + 1 + |b| <= |s| && s[..|a|] == a && s[|a|] == c && s[|a| + 1..|a| + 1 + |b|] == b
    ensures s[..|a| + 1 + |b|] == a + [c] + b
  {
    var w := a + [c] + b;
    forall j | 0 <= j < |w|
      ensures s[j] == w[j]
    {
      if j < |a| {
        assert s[..|a|][j] == s[j];
      } else if j > |a| {
        assert s[|a| + 1..|a| + 1 + |b|][j - |a| - 1] == s[j];
      }
    }
  }

  /** A match of `<stem>.asok$` after position `p` extends to one of the
      text before and at `p` followed by the stem. */
  lemma CoversAfter(b: string, p: nat, g: string)
    requires p < |b| && Covers(b[p + 1..], g)
    ensures Covers(b, b[..p] + [b[p]] + g)
  {
    var r := b[p + 1..];
    assert b[p + 1..p + 1 + |g|] == r[..|g|];
    Pieces(b, b[..p], b[p], g);
    assert b[p + 1 + |g|..] == r[|g|..];
  }

  /** What the groups after the dash cover. */
  lemma AfterDashShape(r: string)
    requires AfterDash(r).Some?
    ensures '.' !in AfterDash(r).value.0 && OneLine(AfterDash(r).value.1)
    ensures Covers(r, AfterDash(r).value.0 + "." + AfterDash(r).value.1)
  {
    var t := PgSummary.BeforeFirstDot(r);
    CoversAfter(r, |t|, AsokTail(r[|t| + 1..]).value);
    assert r[..|t|] == t;
  }

  /** The names a closing dash at `p` gives cover the base name. */
  lemma DashShape(b: string, p: int)
    requires DashAt(b, p)
    ensures '.' !in AfterDash(b[p + 1..]).value.0 && OneLine(b[..p]) && OneLine(AfterDash(b[p + 1..]).value.1)
    ensures Covers(b, ServiceName(SocketName(b[..p], AfterDash(b[p + 1..]).value.0, AfterDash(b[p + 1..]).value.1)))
  {
    var r := b[p + 1..];
    AfterDashShape(r);
    var g := AfterDash(r).value;
    var sr := g.0 + "." + g.1;
    CoversAfter(b, p, sr);
    assert ServiceName(SocketName(b[..p], g.0, g.1)) == b[..p] + [b[p]] + sr;
  }

  /** When the primary pattern matches, the base name is the service name,
      one character other than a newline, "asok" and possibly a final
      newline; the type holds no dot, and no later dash could have closed
      the cluster group. */
  lemma PrimaryShape(b: string)
    requires PrimaryMatch(b).Some?
    ensures '.' !in PrimaryMatch(b).value.serviceType
    ensures OneLine(PrimaryMatch(b).value.cluster) && OneLine(PrimaryMatch(b).value.id)
    ensures Covers(b, ServiceName(PrimaryMatch(b).value))
    ensures forall k :: |PrimaryMatch(b).value.cluster| < k < |b| ==> !DashAt(b, k)
  {
    var p := LastDash(b).value;
    DashShape(b, p);
  }

  /** When only the vstart pattern matches, the cluster is "ceph" and the type
      and id are separated by the last dot that leaves a valid tail. */
  lemma FallbackShape(b: string)
    requires PrimaryMatch(b).None? && ParseSocketName(b).Success?
    ensures ParseSocketName(b).value.cluster == "ceph"
    ensures OneLine(ParseSocketName(b).value.serviceType) && OneLine(ParseSocketName(b).value.id)
    ensures Covers(b, ParseSocketName(b).value.serviceType + "." + ParseSocketName(b).value.id)
  {
    var p := LastDot(b).value;
    CoversAfter(b, p, AsokTail(b[p + 1..]).value);
  }

  /** The part before the first dot of a text that starts with a dot-free
      word and a dot is that word. */
  lemma {:induction false} BeforeFirstDotOf(t: string, rest: string)
    requires '.' !in t
    ensures PgSummary.BeforeFirstDot(t + "." + rest) == t
    decreases |t|
  {
    if t != [] {
      assert (t + "." + rest)[1..] == t[1..] + "." + rest;
      BeforeFirstDotOf(t[1..], rest);
      assert t == [t[0]] + t[1..];
    }
  }

  /** `(.*).asok$` takes the whole id when a single character precedes "asok". */
  lemma AsokTailOf(i: string, x: char)
    requires OneLine(i) && x != '\n'
    ensures AsokTail(i + [x] + "asok") == Some(i)
  {
    var r := i + [x] + "asok";
    assert r[|r| - 1] == 'k';
    assert r[|r| - 4..] == "asok" && r[|r| - 5] == x && r[..|r| - 5] == i;
  }

  /** A service's names survive the trip through its socket file name when
      the cluster and id hold no newline, the type holds no dot or dash, and
      no dash in the id is followed by a dot. */
  predicate Parsable(n: SocketName) {
    && OneLine(n.cluster) && OneLine(n.id)
    && '.' !in n.serviceType && '-' !in n.serviceType
    && forall j, k :: 0 <= j < k < |n.id| && n.id[j] == '-' ==> n.id[k] != '.'
  }

  /** After the dash, a dot-free type, a dot and a one-line id followed by
      ".asok" are read as that type and id. */
  lemma AfterDashOf(t: string, i: string)
    requires '.' !in t && OneLine(i)
    ensures AfterDash(t + "." + (i + ".asok")) == Some((t, i))
  {
    var tail := i + ".asok";
    var r := t + "." + tail;
    BeforeFirstDotOf(t, tail);
    assert r[|t| + 1..] == tail;
    assert tail == i + ['.'] + "asok";
    AsokTailOf(i, '.');
  }

  /** The dash after the cluster closes the first group. */
  lemma DashAfterCluster(n: SocketName)
    requires Parsable(n)
    ensures DashAt(SocketFile(n), |n.cluster|)
    ensures AfterDash(SocketFile(n)[|n.cluster| + 1..]) == Some((n.serviceType, n.id))
  {
    var s := SocketFile(n);
    var c := |n.cluster|;
    var r := n.serviceType + "." + (n.id + ".asok");
    assert s == n.cluster + "-" + r;
    assert s[..c] == n.cluster && s[c] == '-' && s[c + 1..] == r;
    AfterDashOf(n.serviceType, n.id);
  }

  /** A dot-free text followed by ".asok" leaves the groups after a dash
      nothing to match: the id group would be empty of its separator. */
  lemma NoGroupsAfter(tail: string)
    requires '.' !in tail
    ensures AfterDash(tail + "." + "asok").None?
  {
    BeforeFirstDotOf(tail, "asok");
    assert (tail + "." + "asok")[|tail| + 1..] == "asok";
    assert AsokTail("asok").None?;
  }

  /** A dash inside the id of a parsable service cannot close the first
      group, since no dot follows it before ".asok". */
  lemma NoDashInId(n: SocketName, k: int)
    requires Parsable(n)
    requires |n.cluster| + |n.serviceType| + 2 <= k < |n.cluster| + |n.serviceType| + 2 + |n.id|
    ensures !DashAt(SocketFile(n), k)
  {
    var s := SocketFile(n);
    var idStart := |n.cluster| + |n.serviceType| + 2;
    var j := k - idStart;
    assert s == (n.cluster + "-" + n.serviceType + ".") + n.id + "." + "asok";
    assert s[k] == n.id[j];
    if n.id[j] == '-' {
      var tail := n.id[j + 1..];
      assert '.' !in tail by {
        forall m | 0 <= m < |tail|
          ensures tail[m] != '.'
        {
          assert tail[m] == n.id[j + 1 + m];
        }
      }
      assert s[k + 1..] == tail + "." + "asok";
      NoGroupsAfter(tail);
    }
  }

  /** No dash after the cluster's can close the first group. */
  lemma NoLaterDash(n: SocketName, k: int)
    requires Parsable(n) && |n.cluster| < k < |SocketFile(n)|
    ensures !DashAt(SocketFile(n), k)
  {
    var s := SocketFile(n);
    var c := |n.cluster|;
    var t := |n.serviceType|;
    var idStart := c + t + 2;
    assert s == n.cluster + "-" + n.serviceType + "." + n.id + ".asok";
    if k < c + 1 + t {
      assert s[k] == n.serviceType[k - c - 1];
    } else if k == c + 1 + t {
      assert s[k] == '.';
    } else if k < idStart + |n.id| {
      NoDashInId(n, k);
    } else {
      assert s[k] == ".asok"[k - idStart - |n.id|];
    }
  }

  /** Parsing the socket file name of a parsable service gives back its
      cluster, type and id. */
  lemma SocketNameRoundTrip(n: SocketName)
    requires Parsable(n)
    ensures ParseSocketName(SocketFile(n)) == Success(n)
  {
    var s := SocketFile(n);
    var marks := Dashes(s);
    DashAfterCluster(n);
    forall k | |n.cluster| < k < |s|
      ensures !marks[k]
    {
      NoLaterDash(n, k);
    }
    LastMarkIs(marks, |s|, |n.cluster|);
    assert s[..|n.cluster|] == n.cluster;
  }

  /** A name without a dash leaves the primary pattern nothing to match. */
  lemma NoDash(s: string)
    requires '-' !in s
    ensures LastDash(s).None?
  {
    var marks := Dashes(s);
    forall k | 0 <= k < |s|
      ensures !marks[k]
    {
      assert s[k] in s;
    }
    LastMarkNone(marks, |s|);
  }

  /** In "<type>.<id>.asok" with a dot-free id, no dot after the type's can
      close the vstart pattern's first group. */
  lemma NoLaterDot(t: string, i: string, k: int)
    requires '.' !in i && |t| < k < |t| + |i| + 6
    ensures !DotAt(t + "." + i + ".asok", k)
  {
    var s := t + "." + i + ".asok";
    var d := |t| + 1 + |i|;
    if k < d {
      assert s[k] == i[k - |t| - 1];
    } else if k == d {
      assert s[k + 1..] == "asok";
    } else {
      assert s[k] == ".asok"[k - d];
    }
  }

  /** The dot after the type can close the vstart pattern's first group. */
  lemma DotAfterType(t: string, i: string)
    requires OneLine(t) && OneLine(i)
    ensures DotAt(t + "." + i + ".asok", |t|)
  {
    var s := t + "." + i + ".asok";
    var p := |t|;
    assert s[..p] == t && s[p] == '.' && s[p + 1..] == i + ['.'] + "asok";
    AsokTailOf(i, '.');
  }

  /** The vstart pattern's first group ends at the type's dot. */
  lemma LastDotAfterType(t: string, i: string)
    requires OneLine(t) && OneLine(i) && '.' !in i
    ensures LastDot(t + "." + i + ".asok") == Some(|t|)
  {
    var s := t + "." + i + ".asok";
    var marks := Dots(s);
    DotAfterType(t, i);
    forall k | |t| < k < |s|
      ensures !marks[k]
    {
      NoLaterDot(t, i, k);
    }
    LastMarkIs(marks, |s|, |t|);
  }

  /** When only the vstart pattern can match at `p`, its groups are read. */
  lemma FallbackAt(b: string, p: int)
    requires LastDash(b).None? && LastDot(b) == Some(p)
    ensures ParseSocketName(b) == Success(SocketName("ceph", b[..p], AsokTail(b[p + 1..]).value))
  {
  }

  /** A vstart socket file "<type>.<id>.asok" whose type and id hold no
      dash or newline and whose id holds no dot is read as cluster "ceph"
      with that type and id. */
  lemma VstartName(t: string, i: string)
    requires '-' !in t && '-' !in i && OneLine(t) && OneLine(i) && '.' !in i
    ensures ParseSocketName(t + "." + i + ".asok") == Success(SocketName("ceph", t, i))
  {
    var s := t + "." + i + ".asok";
    VstartPieces(t, i);
    NoDash(s);
    LastDotAfterType(t, i);
    FallbackAt(s, |t|);
  }

  /** The pieces of a vstart socket file name that its parse reads. */
  lemma VstartPieces(t: string, i: string)
    requires '-' !in t && '-' !in i && OneLine(i)
    ensures var s := t + "." + i + ".asok";
      '-' !in s && s[..|t|] == t && AsokTail(s[|t| + 1..]) == Some(i)
  {
    var s := t + "." + i + ".asok";
    var tail := i + ".asok";
    assert s == t + "." + tail;
    assert '-' !in s by {
      assert '-' !in "." && '-' !in tail;
    }
    assert s[..|t|] == t && s[|t| + 1..] == i + ['.'] + "asok";
    AsokTailOf(i, '.');
  }

  // ---------------------------------------------------------------------
  // service_status
  // ---------------------------------------------------------------------

  /** What a service's admin socket answers to `config get fsid`,
      `mon_status` and `version`, decoded: a RadosError stands for an
      AdminSocketError, a ValueError for text json.loads rejects. */
  datatype Probe = Probe(config: Result<Value, Error>, monStatus: Result<Value, Error>, version: Result<Value, Error>)

  /** The dict service_status returns (status is None except for mons). */
  datatype ServiceData = ServiceData(cluster: string, serviceType: string, id: string, fsid: Value,
                                     status: Option<Value>, version: Value)

  /** service_status(socket_path) against the socket's answers. */
  function ServiceStatus(path: string, probe: Probe): (r: Result<ServiceData, Error>)
    ensures ParseSocketName(Basename(path)).Failure? ==> r == Failure(AttributeError)
    ensures r.Success? ==>
      ParseSocketName(Basename(path)) == Success(SocketName(r.value.cluster, r.value.serviceType, r.value.id))
    ensures r.Success? ==> (r.value.status.Some? <==> r.value.serviceType == "mon")
    ensures r.Success? ==> && probe.config.Success? && Field(probe.config.value, "fsid") == Success(r.value.fsid)
                           && probe.version.Success? && Field(probe.version.value, "version") == Success(r.value.version)
    ensures r.Success? && r.value.serviceType == "mon" ==> probe.monStatus.Success? && r.value.status == Some(probe.monStatus.value)
  {
    match ParseSocketName(Basename(path))
    case Failure(e) => Failure(e)
    case Success(names) => Describe(names, probe)
  }

  /** The rest of service_status once the names are read: the fsid, the mon
      status for a mon only, then the version, each failure escaping. */
  function Describe(names: SocketName, probe: Probe): (r: Result<ServiceData, Error>)
    ensures r.Success? ==> SocketName(r.value.cluster, r.value.serviceType, r.value.id) == names
    ensures r.Success? ==> (r.value.status.Some? <==> names.serviceType == "mon")
    ensures r.Failure? <==>
      (|| probe.config.Failure? || Field(probe.config.value, "fsid").Failure?
       || (names.serviceType == "mon" && probe.monStatus.Failure?)
       || probe.version.Failure? || Field(probe.version.value, "version").Failure?)
    ensures r.Success? ==> && probe.config.Success? && Field(probe.config.value, "fsid") == Success(r.value.fsid)
                           && probe.version.Success? && Field(probe.version.value, "version") == Success(r.value.version)
    ensures r.Success? && names.serviceType == "mon" ==> probe.monStatus.Success? && r.value.status == Some(probe.monStatus.value)
  {
    var config :- probe.config;
    var fsid :- Field(config, "fsid");
    var status :- if names.serviceType == "mon" then MonStatusOf(probe) else Success(None);
    var versionDoc :- probe.version;
    var version :- Field(versionDoc, "version");
    Success(ServiceData(names.cluster, names.serviceType, names.id, fsid, status, version))
  }

  function MonStatusOf(probe: Probe): Result<Option<Value>, Error> {
    var m :- probe.monStatus;
    Success(Some(m))
  }

  /** The mon test of get_heartbeats: a mon whose rank is in its quorum. */
  function InQuorum(sd: ServiceData): (r: Result<bool, Error>)
    ensures sd.serviceType != "mon" ==> r == Success(false)
    ensures r == Success(true) <==>
      && sd.serviceType == "mon" && sd.status.Some? && sd.status.value.Object?
      && "rank" in sd.status.value.fields && "quorum" in sd.status.value.fields
      && sd.status.value.fields["quorum"].List?
      && sd.status.value.fields["rank"] in sd.status.value.fields["quorum"].items
    ensures sd.serviceType == "mon" && sd.status.Some? && !sd.status.value.Object? ==> r == Failure(TypeError)
  {
    if sd.serviceType != "mon" then Success(false)
    else if sd.status.None? then Failure(TypeError)
    else
      var rank :- Field(sd.status.value, "rank");
      var quorum :- Field(sd.status.value, "quorum");
      if quorum.List? then Success(rank in quorum.items) else Failure(TypeError)
  }

  function NameOf(sd: ServiceData): string {
    ServiceName(SocketName(sd.cluster, sd.serviceType, sd.id))
  }

  // ---------------------------------------------------------------------
  // get_heartbeats: the socket scan
  // ---------------------------------------------------------------------

  /** services, fsid_names and mon_sockets as the scan leaves them. */
  datatype Scan = Scan(services: map<string, ServiceData>, fsidNames: map<Value, string>, monSockets: map<Value, string>)

  const NothingFound: Scan := Scan(map[], map[], map[])

  /** What the scan records for a service that answered. */
  function Absorb(sc: Scan, path: string, sd: ServiceData, quorate: bool): Scan {
    Scan(sc.services[NameOf(sd) := sd], sc.fsidNames[sd.fsid := sd.cluster],
         if quorate then sc.monSockets[sd.fsid := path] else sc.monSockets)
  }

  /** What service_status gives for each socket path. */
  type Statuses = string -> Result<ServiceData, Error>

  /** service_status over sockets answering as `probes` says. */
  function StatusesOf(probes: string -> Probe): Statuses {
    path => ServiceStatus(path, probes(path))
  }

  /** One socket: a rados.Error leaves it out, any other exception escapes. */
  function Visit(sc: Scan, path: string, status: Result<ServiceData, Error>): Result<Scan, Error> {
    match status
    case Failure(e) => if e.RadosError? then Success(sc) else Failure(e)
    case Success(sd) =>
      var quorate :- InQuorum(sd);
      Success(Absorb(sc, path, sd, quorate))
  }

  /** The scan over the sockets in the order glob lists them. */
  function ScanAll(paths: seq<string>, statuses: Statuses): Result<Scan, Error> {
    if paths == [] then Success(NothingFound)
    else
      var before :- ScanAll(paths[..|paths| - 1], statuses);
      Visit(before, paths[|paths| - 1], statuses(paths[|paths| - 1]))
  }

  /** The socket loop of get_heartbeats. */
  method ScanSockets(paths: seq<string>, statuses: Statuses) returns (r: Result<Scan, Error>)
    ensures r == ScanAll(paths, statuses)
  {
    var services: map<string, ServiceData> := map[];
    var fsidNames: map<Value, string> := map[];
    var monSockets: map<Value, string> := map[];
    var i := 0;
    while i < |paths|
      invariant 0 <= i <= |paths|
      invariant ScanAll(paths[..i], statuses) == Success(Scan(services, fsidNames, monSockets))
    {
      ScanStep(paths, statuses, i);
      var filename := paths[i];
      var serviceData := statuses(filename);
      if serviceData.Failure? {
        if !serviceData.error.RadosError? {
          ScanFailurePersists(paths, statuses, i + 1);
          return Failure(serviceData.error);
        }
      } else {
        var sd := serviceData.value;
        services := services[NameOf(sd) := sd];
        fsidNames := fsidNames[sd.fsid := sd.cluster];
        var quorate := InQuorum(sd);
        if quorate.Failure? {
          ScanFailurePersists(paths, statuses, i + 1);
          return Failure(quorate.error);
        }
        if quorate.value {
          monSockets := monSockets[sd.fsid := filename];
        }
      }
      i := i + 1;
    }
    assert paths[..i] == paths;
    r := Success(Scan(services, fsidNames, monSockets));
  }

  lemma ScanStep(paths: seq<string>, statuses: Statuses, i: nat)
    requires i < |paths|
    ensures ScanAll(paths[..i + 1], statuses) ==
            match ScanAll(paths[..i], statuses)
            case Failure(e) => Failure(e)
            case Success(sc) => Visit(sc, paths[i], statuses(paths[i]))
  {
    assert paths[..i + 1][..i] == paths[..i];
  }

  lemma {:induction false} ScanFailurePersists(paths: seq<string>, statuses: Statuses, k: nat)
    requires k <= |paths| && ScanAll(paths[..k], statuses).Failure?
    ensures ScanAll(paths, statuses) == ScanAll(paths[..k], statuses)
    decreases |paths| - k
  {
    if k < |paths| {
      ScanStep(paths, statuses, k);
      ScanFailurePersists(paths, statuses, k + 1);
    } else {
      assert paths[..k] == paths;
    }
  }

  /** A socket whose answers make get_heartbeats raise. */
  predicate Fatal(status: Result<ServiceData, Error>) {
    match status
    case Failure(e) => !e.RadosError?
    case Success(sd) => InQuorum(sd).Failure?
  }

  /** A socket of an in-quorum mon of cluster `fsid`. */
  predicate QuorateMon(status: Result<ServiceData, Error>, fsid: Value) {
    status.Success? && status.value.fsid == fsid && InQuorum(status.value) == Success(true)
  }

  /** The scan raises exactly when some socket's answers are fatal. */
  lemma {:induction false} ScanFailsIff(paths: seq<string>, statuses: Statuses)
    ensures ScanAll(paths, statuses).Failure? <==> exists path :: path in paths && Fatal(statuses(path))
  {
    if paths != [] {
      var n := |paths| - 1;
      ScanFailsIff(paths[..n], statuses);
      assert forall path :: path in paths <==> path in paths[..n] || path == paths[n];
    }
  }

  /** A completed scan is its last socket visited after the rest. */
  lemma ScanLast(paths: seq<string>, statuses: Statuses)
    requires paths != [] && ScanAll(paths, statuses).Success?
    ensures ScanAll(paths[..|paths| - 1], statuses).Success?
    ensures ScanAll(paths, statuses) == Visit(ScanAll(paths[..|paths| - 1], statuses).value, paths[|paths| - 1], statuses(paths[|paths| - 1]))
  {
  }

  /** A completed scan holds a service entry exactly for each name of a
      service that answered, under that service's own name. */
  lemma {:induction false} ScanServices(paths: seq<string>, statuses: Statuses)
    requires ScanAll(paths, statuses).Success?
    ensures forall name :: name in ScanAll(paths, statuses).value.services <==>
              exists path :: path in paths && statuses(path).Success? && NameOf(statuses(path).value) == name
    ensures forall name :: name in ScanAll(paths, statuses).value.services ==>
              NameOf(ScanAll(paths, statuses).value.services[name]) == name
  {
    if paths != [] {
      ScanLast(paths, statuses);
      PgSummary.MembersLast(paths);
      ScanServices(paths[..|paths| - 1], statuses);
    }
  }

  /** A completed scan holds a mon socket exactly for each cluster with an
      in-quorum mon here, naming one of them, and every such cluster has a
      name. */
  lemma {:induction false} ScanMonSockets(paths: seq<string>, statuses: Statuses)
    requires ScanAll(paths, statuses).Success?
    ensures forall f :: f in ScanAll(paths, statuses).value.monSockets <==>
              exists path :: path in paths && QuorateMon(statuses(path), f)
    ensures forall f :: f in ScanAll(paths, statuses).value.monSockets ==>
              var path := ScanAll(paths, statuses).value.monSockets[f];
              QuorateMon(statuses(path), f) && path in paths
    ensures ScanAll(paths, statuses).value.monSockets.Keys <= ScanAll(paths, statuses).value.fsidNames.Keys
  {
    if paths != [] {
      ScanLast(paths, statuses);
      PgSummary.MembersLast(paths);
      ScanMonSockets(paths[..|paths| - 1], statuses);
    }
  }

  // ---------------------------------------------------------------------
  // get_heartbeats: the cluster heartbeats and the result
  // ---------------------------------------------------------------------

  /** What cluster_status gives for a cluster with an in-quorum mon here,
      raising a non-rados error. */
  predicate FatalCluster(sc: Scan, statusOf: string -> Result<Value, Error>, f: Value)
    requires f in sc.fsidNames
  {
    statusOf(sc.fsidNames[f]).Failure? && !statusOf(sc.fsidNames[f]).error.RadosError?
  }

  /** cluster_heartbeat: the status of every cluster with an in-quorum mon
      here, clusters whose status raised a rados.Error left out. */
  function ClusterMap(sc: Scan, statusOf: string -> Result<Value, Error>): map<Value, Value>
    requires sc.monSockets.Keys <= sc.fsidNames.Keys
  {
    map f | f in sc.monSockets && statusOf(sc.fsidNames[f]).Success? :: statusOf(sc.fsidNames[f]).value
  }

  /** The cluster loop of get_heartbeats, over mon_sockets in whatever order
      the dict yields its items. */
  method ClusterHeartbeats(sc: Scan, statusOf: string -> Result<Value, Error>) returns (r: Result<map<Value, Value>, Error>)
    requires sc.monSockets.Keys <= sc.fsidNames.Keys
    ensures r.Success? <==> forall f :: f in sc.monSockets ==> !FatalCluster(sc, statusOf, f)
    ensures r.Success? ==> r.value == ClusterMap(sc, statusOf)
    ensures r.Failure? ==> exists f :: f in sc.monSockets && statusOf(sc.fsidNames[f]) == Failure(r.error)
  {
    var heartbeat: map<Value, Value> := map[];
    var remaining := sc.monSockets.Keys;
    while remaining != {}
      invariant remaining <= sc.monSockets.Keys
      invariant forall f :: f in sc.monSockets.Keys - remaining ==> !FatalCluster(sc, statusOf, f)
      invariant forall f :: f in heartbeat <==> f in sc.monSockets.Keys - remaining && statusOf(sc.fsidNames[f]).Success?
      invariant forall f :: f in heartbeat ==> heartbeat[f] == statusOf(sc.fsidNames[f]).value
      decreases remaining
    {
      var fsid :| fsid in remaining;
      var status := statusOf(sc.fsidNames[fsid]);
      if status.Success? {
        heartbeat := heartbeat[fsid := status.value];
      } else if !status.error.RadosError? {
        return Failure(status.error);
      }
      remaining := remaining - {fsid};
    }
    r := Success(heartbeat);
  }

  /** The installed version get_heartbeats reports: None for an empty word. */
  function InstalledVersion(versionOut: string): (v: Option<string>)
    ensures v.Some? ==> v.value != "" && Cli.CephVersion(versionOut) == v
    ensures v.None? ==> Cli.CephVersion(versionOut).None? || Cli.CephVersion(versionOut) == Some("")
  {
    match Cli.CephVersion(versionOut)
    case None => None
    case Some(w) => if w == "" then None else Some(w)
  }

  /** The server heartbeat: the services found, the boot time, the version. */
  datatype ServerHeartbeat = ServerHeartbeat(services: map<string, ServiceData>, bootTime: int, cephVersion: Option<string>)

  /** The pair get_heartbeats returns. */
  datatype Heartbeats = Heartbeats(server: ServerHeartbeat, clusters: map<Value, Value>)

  /** get_heartbeats over the sockets glob lists: `probes` answers for each
      socket, `versionOut` is the output of `ceph --version`, `bootTime` the
      btime of /proc/stat, `statusOf` what cluster_status gives for a cluster
      name (a failed connection being a RadosError). */
  method GetHeartbeats(paths: seq<string>, probes: string -> Probe, versionOut: string, bootTime: int,
                       statusOf: string -> Result<Value, Error>) returns (r: Result<Heartbeats, Error>)
    ensures ScanAll(paths, StatusesOf(probes)).Failure? ==> r == Failure(ScanAll(paths, StatusesOf(probes)).error)
    ensures ScanAll(paths, StatusesOf(probes)).Success? ==>
      var sc := ScanAll(paths, StatusesOf(probes)).value;
      sc.monSockets.Keys <= sc.fsidNames.Keys &&
      (r.Success? <==> forall f :: f in sc.monSockets ==> !FatalCluster(sc, statusOf, f)) &&
      (r.Success? ==> r.value == Heartbeats(ServerHeartbeat(sc.services, bootTime, InstalledVersion(versionOut)),
                                            ClusterMap(sc, statusOf)))
  {
    var scan := ScanSockets(paths, StatusesOf(probes));
    if scan.Failure? {
      return Failure(scan.error);
    }
    ScanMonSockets(paths, StatusesOf(probes));
    var cephVersion := InstalledVersion(versionOut);
    var clusters := ClusterHeartbeats(scan.value, statusOf);
    if clusters.Failure? {
      return Failure(clusters.error);
    }
    r := Success(Heartbeats(ServerHeartbeat(scan.value.services, bootTime, cephVersion), clusters.value));
  }
}
