/** The messages the agent passes from its generator to its subscribers,
    the handler calls a subscriber's listen loop makes for them, and the
    job runner: the run_job name table, run_job_thread's completion event
    and run_job_sync. */
module Events {
  import opened Wrappers
  import opened Json
  import Heartbeat

  // ---------------------------------------------------------------------
  // Events and handler calls
  // ---------------------------------------------------------------------

  /** The payload of a JOB event. */
  datatype JobReport = JobReport(id: string, jid: string, success: bool, ret: Value, fun: string, funArgs: Value)

  /** A MsgEvent by kind.  A cluster heartbeat is its dict's items in the
      order the dict yields them; RUNNING_JOBS carries the jids of its
      `{'jid': jid}` entries. */
  datatype Event =
    | ClusterHeartbeat(clusters: seq<(Value, Value)>)        // HEARTBEAT = 0
    | JobDone(report: JobReport)                             // JOB = 1
    | ServerHeartbeat(server: Heartbeat.ServerHeartbeat)     // SERVER_HEARTBEAT = 2
    | RunningJobs(jids: seq<string>)                         // RUNNING_JOBS = 3

  /** Which of listen's four callbacks were passed (not None). */
  datatype Handlers = Handlers(onHeartbeat: bool, onJob: bool, onServerHeartbeat: bool, onRunningJobs: bool)

  /** One callback invocation made by listen. */
  datatype Call =
    | OnHeartbeat(fqdn: string, cluster: Value)
    | OnJob(report: JobReport)
    | OnServerHeartbeat(fqdn: string, server: Heartbeat.ServerHeartbeat)
    | OnRunningJobs(fqdn: string, jids: seq<string>)

  /** The event is of a kind with a single callback, and that callback was
      passed. */
  predicate SingleCallback(h: Handlers, ev: Event) {
    (ev.JobDone? && h.onJob) || (ev.ServerHeartbeat? && h.onServerHeartbeat) || (ev.RunningJobs? && h.onRunningJobs)
  }

  /** The calls listen makes for one event taken from the inbox, on a
      subscriber whose fqdn is `fqdn`. */
  function Dispatch(fqdn: string, h: Handlers, ev: Event): (calls: seq<Call>)
    ensures ev.ClusterHeartbeat? ==> |calls| == if h.onHeartbeat then |ev.clusters| else 0
    ensures !ev.ClusterHeartbeat? ==> |calls| == if SingleCallback(h, ev) then 1 else 0
  {
    match ev
    case ClusterHeartbeat(clusters) =>
      if h.onHeartbeat && |clusters| > 0
      then seq(|clusters|, k requires 0 <= k < |clusters| => OnHeartbeat(fqdn, clusters[k].1))
      else []
    case ServerHeartbeat(server) =>
      if h.onServerHeartbeat then [OnServerHeartbeat(fqdn, server)] else []
    case JobDone(report) =>
      if h.onJob then [OnJob(report)] else []
    case RunningJobs(jids) =>
      if h.onRunningJobs then [OnRunningJobs(fqdn, jids)] else []
  }

  /** The calls listen makes for the events it drains, in order. */
  function DispatchAll(fqdn: string, h: Handlers, evs: seq<Event>): seq<Call> {
    if evs == [] then []
    else DispatchAll(fqdn, h, evs[..|evs| - 1]) + Dispatch(fqdn, h, evs[|evs| - 1])
  }

  /** Draining two batches one after the other makes the calls of both. */
  lemma {:induction false} DispatchAllAppend(fqdn: string, h: Handlers, a: seq<Event>, b: seq<Event>)
    ensures DispatchAll(fqdn, h, a + b) == DispatchAll(fqdn, h, a) + DispatchAll(fqdn, h, b)
    decreases |b|
  {
    if b == [] {
      assert a + b == a;
    } else {
      var n := |b| - 1;
      assert (a + b)[..|a + b| - 1] == a + b[..n] && (a + b)[|a + b| - 1] == b[n];
      DispatchAllAppend(fqdn, h, a, b[..n]);
      var d := Dispatch(fqdn, h, b[n]);
      assert DispatchAll(fqdn, h, a + b) == DispatchAll(fqdn, h, a + b[..n]) + d;
      assert DispatchAll(fqdn, h, b) == DispatchAll(fqdn, h, b[..n]) + d;
    }
  }

  // Reference views of an event sequence and of a call sequence.

  /** The cluster heartbeats one event carries, one per cluster entry. */
  function Entries(ev: Event): seq<Value> {
    if ev.ClusterHeartbeat? then seq(|ev.clusters|, k requires 0 <= k < |ev.clusters| => ev.clusters[k].1) else []
  }

  /** The cluster heartbeats the events carry, in order. */
  function ClusterValues(evs: seq<Event>): seq<Value> {
    if evs == [] then [] else ClusterValues(evs[..|evs| - 1]) + Entries(evs[|evs| - 1])
  }

  /** The job reports the events carry. */
  function Reports(evs: seq<Event>): seq<JobReport> {
    if evs == [] then []
    else Reports(evs[..|evs| - 1]) + (if evs[|evs| - 1].JobDone? then [evs[|evs| - 1].report] else [])
  }

  /** The server heartbeats the events carry. */
  function Servers(evs: seq<Event>): seq<Heartbeat.ServerHeartbeat> {
    if evs == [] then []
    else Servers(evs[..|evs| - 1]) + (if evs[|evs| - 1].ServerHeartbeat? then [evs[|evs| - 1].server] else [])
  }

  /** The running-job lists the events carry. */
  function JidLists(evs: seq<Event>): seq<seq<string>> {
    if evs == [] then []
    else JidLists(evs[..|evs| - 1]) + (if evs[|evs| - 1].RunningJobs? then [evs[|evs| - 1].jids] else [])
  }

  /** The number of events of the kinds with a single callback. */
  function Singles(evs: seq<Event>, h: Handlers): nat {
    if evs == [] then 0
    else
      var last := evs[|evs| - 1];
      Singles(evs[..|evs| - 1], h) + (if SingleCallback(h, last) then 1 else 0)
  }

  /** The clusters heartbeats that on_heartbeat received. */
  function HeartbeatArgs(calls: seq<Call>): seq<Value> {
    if calls == [] then []
    else
      var last := calls[|calls| - 1];
      HeartbeatArgs(calls[..|calls| - 1]) + (if last.OnHeartbeat? then [last.cluster] else [])
  }

  /** The reports that on_job received. */
  function JobArgs(calls: seq<Call>): seq<JobReport> {
    if calls == [] then []
    else JobArgs(calls[..|calls| - 1]) + (if calls[|calls| - 1].OnJob? then [calls[|calls| - 1].report] else [])
  }

  /** The server heartbeats that on_server_heartbeat received. */
  function ServerArgs(calls: seq<Call>): seq<Heartbeat.ServerHeartbeat> {
    if calls == [] then []
    else
      var last := calls[|calls| - 1];
      ServerArgs(calls[..|calls| - 1]) + (if last.OnServerHeartbeat? then [last.server] else [])
  }

  /** The jid lists that on_running_jobs received. */
  function JidArgs(calls: seq<Call>): seq<seq<string>> {
    if calls == [] then []
    else
      var last := calls[|calls| - 1];
      JidArgs(calls[..|calls| - 1]) + (if last.OnRunningJobs? then [last.jids] else [])
  }

  lemma {:induction false} HeartbeatArgsAppend(a: seq<Call>, b: seq<Call>)
    ensures HeartbeatArgs(a + b) == HeartbeatArgs(a) + HeartbeatArgs(b)
    decreases |b|
  {
    if b == [] {
      assert a + b == a;
    } else {
      assert (a + b)[..|a + b| - 1] == a + b[..|b| - 1];
      HeartbeatArgsAppend(a, b[..|b| - 1]);
    }
  }

  lemma {:induction false} JobArgsAppend(a: seq<Call>, b: seq<Call>)
    ensures JobArgs(a + b) == JobArgs(a) + JobArgs(b)
    decreases |b|
  {
    if b == [] {
      assert a + b == a;
    } else {
      assert (a + b)[..|a + b| - 1] == a + b[..|b| - 1];
      JobArgsAppend(a, b[..|b| - 1]);
    }
  }

  lemma {:induction false} ServerArgsAppend(a: seq<Call>, b: seq<Call>)
    ensures ServerArgs(a + b) == ServerArgs(a) + ServerArgs(b)
    decreases |b|
  {
    if b == [] {
      assert a + b == a;
    } else {
      assert (a + b)[..|a + b| - 1] == a + b[..|b| - 1];
      ServerArgsAppend(a, b[..|b| - 1]);
    }
  }

  lemma {:induction false} JidArgsAppend(a: seq<Call>, b: seq<Call>)
    ensures JidArgs(a + b) == JidArgs(a) + JidArgs(b)
    decreases |b|
  {
    if b == [] {
      assert a + b == a;
    } else {
      assert (a + b)[..|a + b| - 1] == a + b[..|b| - 1];
      JidArgsAppend(a, b[..|b| - 1]);
    }
  }

  /** The heartbeat arguments of a fan-out are the cluster values. */
  lemma {:induction false} FanOutArgs(fqdn: string, clusters: seq<(Value, Value)>)
    ensures HeartbeatArgs(seq(|clusters|, k requires 0 <= k < |clusters| => OnHeartbeat(fqdn, clusters[k].1)))
         == seq(|clusters|, k requires 0 <= k < |clusters| => clusters[k].1)
    decreases |clusters|
  {
    if clusters != [] {
      var n := |clusters| - 1;
      var calls := seq(|clusters|, k requires 0 <= k < |clusters| => OnHeartbeat(fqdn, clusters[k].1));
      assert calls[..n] == seq(n, k requires 0 <= k < n => OnHeartbeat(fqdn, clusters[..n][k].1));
      FanOutArgs(fqdn, clusters[..n]);
      assert seq(|clusters|, k requires 0 <= k < |clusters| => clusters[k].1)
          == seq(n, k requires 0 <= k < n => clusters[..n][k].1) + [clusters[n].1];
    }
  }

  /** What one event hands to each of the four callbacks. */
  lemma DispatchArgs(fqdn: string, h: Handlers, ev: Event)
    ensures HeartbeatArgs(Dispatch(fqdn, h, ev)) == if h.onHeartbeat then Entries(ev) else []
    ensures JobArgs(Dispatch(fqdn, h, ev)) == if h.onJob && ev.JobDone? then [ev.report] else []
    ensures ServerArgs(Dispatch(fqdn, h, ev)) == if h.onServerHeartbeat && ev.ServerHeartbeat? then [ev.server] else []
    ensures JidArgs(Dispatch(fqdn, h, ev)) == if h.onRunningJobs && ev.RunningJobs? then [ev.jids] else []
  {
    var d := Dispatch(fqdn, h, ev);
    if ev.ClusterHeartbeat? && h.onHeartbeat && |ev.clusters| > 0 {
      FanOutArgs(fqdn, ev.clusters);
      NoSinglesInFanOut(d);
    } else if d != [] {
      assert d[..0] == [];
    }
  }

  /** on_heartbeat, when passed, receives every cluster heartbeat of every
      HEARTBEAT event in order, empty heartbeats contributing nothing; when
      it is None it is never called. */
  lemma {:induction false} HeartbeatCalls(fqdn: string, h: Handlers, evs: seq<Event>)
    ensures HeartbeatArgs(DispatchAll(fqdn, h, evs)) == if h.onHeartbeat then ClusterValues(evs) else []
  {
    if evs != [] {
      var n := |evs| - 1;
      HeartbeatCalls(fqdn, h, evs[..n]);
      HeartbeatArgsAppend(DispatchAll(fqdn, h, evs[..n]), Dispatch(fqdn, h, evs[n]));
      DispatchArgs(fqdn, h, evs[n]);
    }
  }

  /** on_job, when passed, receives every job report in order; when it is
      None it is never called. */
  lemma {:induction false} JobCalls(fqdn: string, h: Handlers, evs: seq<Event>)
    ensures JobArgs(DispatchAll(fqdn, h, evs)) == if h.onJob then Reports(evs) else []
  {
    if evs != [] {
      var n := |evs| - 1;
      JobCalls(fqdn, h, evs[..n]);
      JobArgsAppend(DispatchAll(fqdn, h, evs[..n]), Dispatch(fqdn, h, evs[n]));
      DispatchArgs(fqdn, h, evs[n]);
    }
  }

  /** A fan-out makes no call to the other three callbacks. */
  lemma {:induction false} NoSinglesInFanOut(calls: seq<Call>)
    requires forall k :: 0 <= k < |calls| ==> calls[k].OnHeartbeat?
    ensures JobArgs(calls) == [] && ServerArgs(calls) == [] && JidArgs(calls) == []
    decreases |calls|
  {
    if calls != [] {
      NoSinglesInFanOut(calls[..|calls| - 1]);
    }
  }

  /** on_server_heartbeat, when passed, receives every server heartbeat in
      order; when it is None it is never called. */
  lemma {:induction false} ServerHeartbeatCalls(fqdn: string, h: Handlers, evs: seq<Event>)
    ensures ServerArgs(DispatchAll(fqdn, h, evs)) == if h.onServerHeartbeat then Servers(evs) else []
  {
    if evs != [] {
      var n := |evs| - 1;
      ServerHeartbeatCalls(fqdn, h, evs[..n]);
      ServerArgsAppend(DispatchAll(fqdn, h, evs[..n]), Dispatch(fqdn, h, evs[n]));
      DispatchArgs(fqdn, h, evs[n]);
    }
  }

  /** on_running_jobs, when passed, receives the jid list of every
      RUNNING_JOBS event in order; when it is None it is never called. */
  lemma {:induction false} RunningJobsCalls(fqdn: string, h: Handlers, evs: seq<Event>)
    ensures JidArgs(DispatchAll(fqdn, h, evs)) == if h.onRunningJobs then JidLists(evs) else []
  {
    if evs != [] {
      var n := |evs| - 1;
      RunningJobsCalls(fqdn, h, evs[..n]);
      JidArgsAppend(DispatchAll(fqdn, h, evs[..n]), Dispatch(fqdn, h, evs[n]));
      DispatchArgs(fqdn, h, evs[n]);
    }
  }

  /** Every call is one heartbeat fan-out entry or one single-callback
      event: the number of calls is the number of cluster entries reaching
      on_heartbeat plus the number of other events whose callback was
      passed. */
  lemma {:induction false} CallCount(fqdn: string, h: Handlers, evs: seq<Event>)
    ensures |DispatchAll(fqdn, h, evs)| == (if h.onHeartbeat then |ClusterValues(evs)| else 0) + Singles(evs, h)
  {
    if evs != [] {
      CallCount(fqdn, h, evs[..|evs| - 1]);
    }
  }

  /** Calls other than on_job carry the subscriber's own fqdn. */
  lemma {:induction false} CallsCarryFqdn(fqdn: string, h: Handlers, evs: seq<Event>)
    ensures forall c :: c in DispatchAll(fqdn, h, evs) && !c.OnJob? ==> c.fqdn == fqdn
  {
    if evs != [] {
      CallsCarryFqdn(fqdn, h, evs[..|evs| - 1]);
    }
  }

  // ---------------------------------------------------------------------
  // run_job
  // ---------------------------------------------------------------------

  /** The job functions run_job knows. */
  datatype JobKind = GetClusterObject | RadosCommands | CephCommand | RbdCommand | ClusterStats | PoolStats

  function JobName(k: JobKind): string {
    match k
    case GetClusterObject => "ceph.get_cluster_object"
    case RadosCommands => "ceph.rados_commands"
    case CephCommand => "ceph.ceph_command"
    case RbdCommand => "ceph.rbd_command"
    case ClusterStats => "ceph.cluster_stats"
    case PoolStats => "ceph.pool_stats"
  }

  const JobNames: seq<string> := ["ceph.get_cluster_object", "ceph.rados_commands", "ceph.ceph_command",
                                  "ceph.rbd_command", "ceph.cluster_stats", "ceph.pool_stats"]

  /** run_job's if/elif chain on the command name.  An unknown name reaches
      `raise NotImplemented(cmd)`, which fails with a TypeError since
      NotImplemented is not callable. */
  function ParseJob(cmd: string): (r: Result<JobKind, Error>)
    ensures r.Success? <==> cmd in JobNames
    ensures r.Success? ==> JobName(r.value) == cmd
    ensures r.Failure? ==> r.error == TypeError
  {
    if cmd == "ceph.get_cluster_object" then Success(GetClusterObject)
    else if cmd == "ceph.rados_commands" then Success(RadosCommands)
    else if cmd == "ceph.ceph_command" then Success(CephCommand)
    else if cmd == "ceph.rbd_command" then Success(RbdCommand)
    else if cmd == "ceph.cluster_stats" then Success(ClusterStats)
    else if cmd == "ceph.pool_stats" then Success(PoolStats)
    else Failure(TypeError)
  }

  /** Every job function is found under its own name. */
  lemma JobNameRoundTrip(k: JobKind)
    ensures ParseJob(JobName(k)) == Success(k)
  {
  }

  /** The arguments run_job passes to each job function, read from `args`
      in order: keys of a dict for the first two, positions of a list for
      the rest, and ceph_command's cluster name None. */
  function Arguments(k: JobKind, args: Value): (r: Result<seq<Value>, Error>)
    ensures r.Success? ==> |r.value| == match k
      case GetClusterObject => 3 case RadosCommands => 3 case CephCommand => 2
      case RbdCommand => 1 case ClusterStats => 1 case PoolStats => 2
    ensures k == GetClusterObject ==>
      && (r.Success? <==> args.Object? && "cluster_name" in args.fields && "sync_type" in args.fields
                          && "since" in args.fields)
      && (r.Success? ==> r.value == [args.fields["cluster_name"], args.fields["sync_type"], args.fields["since"]])
    ensures k == RadosCommands ==>
      && (r.Success? <==> args.Object? && "fsid" in args.fields && "cluster_name" in args.fields
                          && "commands" in args.fields)
      && (r.Success? ==> r.value == [args.fields["fsid"], args.fields["cluster_name"], args.fields["commands"]])
    ensures (k == GetClusterObject || k == RadosCommands) && !args.Object? ==> r == Failure(TypeError)
    ensures k == CephCommand ==> (r.Success? <==> Item(args, 1).Success?)
    ensures k == CephCommand && r.Success? ==> r.value == [Null, Item(args, 1).value]
    ensures k in {RbdCommand, ClusterStats, PoolStats} ==> (r.Success? <==> Item(args, if k == PoolStats then 1 else 0).Success?)
    ensures (k == RbdCommand || k == ClusterStats) && r.Success? ==> r.value == [args.items[0]]
    ensures k == PoolStats && r.Success? ==> r.value == [args.items[0], args.items[1]]
    ensures k != GetClusterObject && k != RadosCommands && !args.List? ==> r == Failure(TypeError)
  {
    match k
    case GetClusterObject =>
      var clusterName :- Field(args, "cluster_name");
      var syncType :- Field(args, "sync_type");
      var since :- Field(args, "since");
      Success([clusterName, syncType, since])
    case RadosCommands =>
      var fsid :- Field(args, "fsid");
      var clusterName :- Field(args, "cluster_name");
      var commands :- Field(args, "commands");
      Success([fsid, clusterName, commands])
    case CephCommand =>
      var commandArgs :- Item(args, 1);
      Success([Null, commandArgs])
    case RbdCommand =>
      var commandArgs :- Item(args, 0);
      Success([commandArgs])
    case ClusterStats =>
      var target :- Item(args, 0);
      Success([target])
    case PoolStats =>
      var first :- Item(args, 0);
      var second :- Item(args, 1);
      Success([first, second])
  }

  /** What a job function does with its arguments (foreign work). */
  type JobFunctions = (JobKind, seq<Value>) -> Result<Value, Error>

  /** run_job(cmd, args). */
  function RunJob(cmd: string, args: Value, functions: JobFunctions): (r: Result<Value, Error>)
    ensures cmd !in JobNames ==> r == Failure(TypeError)
    ensures r.Success? ==> exists k :: JobName(k) == cmd && Arguments(k, args).Success?
                                       && functions(k, Arguments(k, args).value) == r
    ensures cmd in JobNames ==>
      var k := ParseJob(cmd).value;
      && (Arguments(k, args).Success? ==> r == functions(k, Arguments(k, args).value))
      && (Arguments(k, args).Failure? ==> r == Failure(Arguments(k, args).error))
  {
    var k :- ParseJob(cmd);
    var actual :- Arguments(k, args);
    functions(k, actual)
  }

  /** The JOB event run_job_thread builds once the job is over: the job's
      value on success, `trace` (the formatted traceback) on any
      exception. */
  function JobEvent(fqdn: string, jid: string, cmd: string, args: Value, outcome: Result<Value, Error>,
                    trace: string): (r: JobReport)
    ensures r.id == fqdn && r.jid == jid && r.fun == cmd && r.funArgs == args
    ensures r.success <==> outcome.Success?
    ensures r.ret == if outcome.Success? then outcome.value else Str(trace)
  {
    match outcome
    case Success(v) => JobReport(fqdn, jid, true, v, cmd, args)
    case Failure(_) => JobReport(fqdn, jid, false, Str(trace), cmd, args)
  }

  /** The JOB event of a known job whose arguments read reports success
      exactly when the job function returns a value, and carries that value;
      an unknown job or unreadable arguments report failure. */
  lemma JobSuccess(fqdn: string, jid: string, cmd: string, args: Value, functions: JobFunctions, trace: string)
    ensures var report := JobEvent(fqdn, jid, cmd, args, RunJob(cmd, args, functions), trace);
      && (cmd !in JobNames ==> !report.success)
      && (cmd in JobNames ==>
            var k := ParseJob(cmd).value;
            && (Arguments(k, args).Failure? ==> !report.success)
            && (Arguments(k, args).Success? ==>
                  var out := functions(k, Arguments(k, args).value);
                  && (report.success <==> out.Success?)
                  && (out.Success? ==> report.ret == out.value)))
  {
  }

  /** MonRemote.run_job_sync: the job's value, or Unavailable(cmd) for any
      exception. */
  function RunJobSync(cmd: string, args: Value, functions: JobFunctions): (r: Result<Value, Error>)
    ensures r.Success? <==> RunJob(cmd, args, functions).Success?
    ensures r.Success? ==> r.value == RunJob(cmd, args, functions).value
    ensures r.Failure? ==> r.error == Unavailable(cmd)
  {
    match RunJob(cmd, args, functions)
    case Success(v) => Success(v)
    case Failure(_) => Failure(Unavailable(cmd))
  }

  /** Seconds between heartbeats (get_heartbeat_period). */
  const HeartbeatPeriod: nat := 10
}
