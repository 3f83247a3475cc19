/** The agent's event bus: the generator that owns the job table and the
    subscriber list and emits events (MsgGenerator), and the remote object
    a caller subscribes through (MonRemote). */
module Bus {
  import opened Wrappers
  import opened Json
  import Events
  import Heartbeat

  /** What a job table entry stands for: the greenlet running `cmd` on `args`. */
  datatype Job = Job(cmd: string, args: Value)

  predicate Distinct<T(==)>(s: seq<T>) {
    forall j, k :: 0 <= j < k < |s| ==> s[j] != s[k]
  }

  /** A jid the table does not hold, standing for uuid4's fresh one: a run
      of 'j' longer than every jid in use. */
  method FreshJid(used: set<string>) returns (jid: string)
    ensures jid !in used
  {
    var n: nat := 0;
    var rest := used;
    while rest != {}
      invariant rest <= used
      invariant forall s :: s in used && s !in rest ==> |s| < n
      decreases |rest|
    {
      var x :| x in rest;
      if |x| >= n {
        n := |x| + 1;
      }
      rest := rest - {x};
    }
    jid := seq(n, _ => 'j');
  }

  /** MsgGenerator: the job table and the registered subscribers. */
  class Generator {
    var jobs: map<string, Job>
    var instances: seq<Subscriber>
    /** socket.getfqdn() of the host the generator runs on. */
    const localFqdn: string

    /** No subscriber is registered twice. */
    predicate Valid()
      reads this
    {
      Distinct(instances)
    }

    constructor (localFqdn: string)
      ensures Valid() && jobs == map[] && instances == [] && this.localFqdn == localFqdn
    {
      jobs := map[];
      instances := [];
      this.localFqdn := localFqdn;
    }

    /** register: adds a subscriber once. */
    method Register(instance: Subscriber)
      requires Valid()
      modifies this
      ensures Valid() && jobs == old(jobs)
      ensures instances == if instance in old(instances) then old(instances) else old(instances) + [instance]
    {
      if instance !in instances {
        instances := instances + [instance];
      }
    }

    /** _emit: puts the event at the tail of the inbox of every subscriber
        that is listening; every other inbox stays as it was. */
    method Emit(ev: Events.Event)
      requires Valid()
      modifies instances
      ensures forall i :: i in instances ==> i.subscribed == old(i.subscribed)
      ensures forall i :: i in instances ==>
        i.events == if old(i.subscribed) > 0 then old(i.events) + [ev] else old(i.events)
    {
      var k := 0;
      while k < |instances|
        invariant 0 <= k <= |instances|
        invariant forall j :: 0 <= j < |instances| ==> instances[j].subscribed == old(instances[j].subscribed)
        invariant forall j :: 0 <= j < k ==>
          instances[j].events == if old(instances[j].subscribed) > 0 then old(instances[j].events) + [ev] else old(instances[j].events)
        invariant forall j :: k <= j < |instances| ==> instances[j].events == old(instances[j].events)
      {
        if instances[k].subscribed > 0 {
          instances[k].Put(ev);
        }
        k := k + 1;
      }
    }

    /** complete: drops the finished job, then emits its event; a jid the
        table does not hold raises KeyError before anything is emitted. */
    method Complete(jid: string, ev: Events.Event) returns (r: Result<(), Error>)
      requires Valid()
      modifies this, instances
      ensures Valid() && instances == old(instances)
      ensures r.Success? <==> jid in old(jobs)
      ensures r.Failure? ==> r.error == KeyError(jid) && jobs == old(jobs)
      ensures r.Success? ==> jobs == old(jobs) - {jid}
      ensures forall i :: i in instances ==> i.subscribed == old(i.subscribed)
      ensures forall i :: i in instances ==>
        i.events == if r.Success? && old(i.subscribed) > 0 then old(i.events) + [ev] else old(i.events)
    {
      if jid !in jobs {
        return Failure(KeyError(jid));
      }
      jobs := jobs - {jid};
      Emit(ev);
      r := Success(());
    }

    /** The jids of the job table, in the order the dict yields its keys. */
    method JobIds() returns (ids: seq<string>)
      ensures Distinct(ids)
      ensures forall jid :: jid in ids <==> jid in jobs
    {
      ids := [];
      var rest := jobs.Keys;
      while rest != {}
        invariant rest <= jobs.Keys
        invariant Distinct(ids)
        invariant forall jid :: jid in ids <==> jid in jobs.Keys - rest
        decreases rest
      {
        var jid :| jid in rest;
        forall j | 0 <= j < |ids|
          ensures ids[j] != jid
        {
          assert ids[j] in ids;
        }
        ids := ids + [jid];
        rest := rest - {jid};
      }
    }

    /** running_jobs: emits the jids of exactly the jobs in the table. */
    method RunningJobs() returns (ids: seq<string>)
      requires Valid()
      modifies instances
      ensures Distinct(ids) && forall jid :: jid in ids <==> jid in jobs
      ensures forall i :: i in instances ==> i.subscribed == old(i.subscribed)
      ensures forall i :: i in instances ==>
        i.events == if old(i.subscribed) > 0 then old(i.events) + [Events.RunningJobs(ids)] else old(i.events)
    {
      ids := JobIds();
      Emit(Events.RunningJobs(ids));
    }

    /** run_job: a foreign fqdn raises Unavailable and leaves the table as
        it was; otherwise the job goes in under a jid the table did not
        hold, and that jid is returned. */
    method RunJob(fqdn: string, cmd: string, args: Value) returns (r: Result<string, Error>)
      requires Valid()
      modifies this
      ensures Valid() && instances == old(instances)
      ensures r.Success? <==> fqdn == localFqdn
      ensures r.Failure? ==> r.error == Unavailable("") && jobs == old(jobs)
      ensures r.Success? ==> r.value !in old(jobs) && jobs == old(jobs)[r.value := Job(cmd, args)]
    {
      if fqdn != localFqdn {
        return Failure(Unavailable(""));
      }
      var jid := FreshJid(jobs.Keys);
      jobs := jobs[jid := Job(cmd, args)];
      r := Success(jid);
    }

    /** run_job_thread for a job in the table: runs it, then completes it
        with the JOB event carrying its value or, on any exception, the
        formatted traceback `trace`. */
    method RunJobThread(jid: string, functions: Events.JobFunctions, trace: string) returns (report: Events.JobReport)
      requires Valid() && jid in jobs
      modifies this, instances
      ensures Valid() && instances == old(instances) && jobs == old(jobs) - {jid}
      ensures var job := old(jobs)[jid];
        report == Events.JobEvent(localFqdn, jid, job.cmd, job.args, Events.RunJob(job.cmd, job.args, functions), trace)
      ensures forall i :: i in instances ==> i.subscribed == old(i.subscribed)
      ensures forall i :: i in instances ==>
        i.events == if old(i.subscribed) > 0 then old(i.events) + [Events.JobDone(report)] else old(i.events)
    {
      var job := jobs[jid];
      var outcome := Events.RunJob(job.cmd, job.args, functions);
      report := Events.JobEvent(localFqdn, jid, job.cmd, job.args, outcome, trace);
      var done := Complete(jid, Events.JobDone(report));
    }

    /** One round of _run once get_heartbeats has answered: the server
        heartbeat (a dict that is never empty) is emitted, then the cluster
        heartbeat when the dict has an entry, as the items it yields. */
    method HeartbeatRound(hb: Heartbeat.Heartbeats) returns (items: seq<(Value, Value)>)
      requires Valid()
      modifies instances
      ensures ListsItems(items, hb.clusters)
      ensures forall i :: i in instances ==> i.subscribed == old(i.subscribed)
      ensures forall i :: i in instances ==>
        i.events == if old(i.subscribed) > 0 then old(i.events) + Round(hb.server, items) else old(i.events)
    {
      Emit(Events.ServerHeartbeat(hb.server));
      items := ItemsOf(hb.clusters);
      ItemsEmpty(items, hb.clusters);
      if hb.clusters != map[] {
        Emit(Events.ClusterHeartbeat(items));
      }
    }
  }

  /** The events one heartbeat round emits. */
  function Round(server: Heartbeat.ServerHeartbeat, clusters: seq<(Value, Value)>): seq<Events.Event> {
    [Events.ServerHeartbeat(server)] + if |clusters| > 0 then [Events.ClusterHeartbeat(clusters)] else []
  }

  /** `items` lists the entries of `m`, each key once, in some order. */
  predicate ListsItems(items: seq<(Value, Value)>, m: map<Value, Value>) {
    && (forall j, k :: 0 <= j < k < |items| ==> items[j].0 != items[k].0)
    && (forall k :: 0 <= k < |items| ==> items[k].0 in m && m[items[k].0] == items[k].1)
    && (forall f :: f in m ==> exists k :: 0 <= k < |items| && items[k].0 == f)
  }

  /** The items of a dict, in the order iteritems() yields them. */
  method ItemsOf(m: map<Value, Value>) returns (items: seq<(Value, Value)>)
    ensures ListsItems(items, m)
  {
    items := [];
    var rest := m.Keys;
    while rest != {}
      invariant rest <= m.Keys
      invariant forall j, k :: 0 <= j < k < |items| ==> items[j].0 != items[k].0
      invariant forall k :: 0 <= k < |items| ==> items[k].0 in m && m[items[k].0] == items[k].1
      invariant forall k :: 0 <= k < |items| ==> items[k].0 !in rest
      invariant forall f :: f in m && f !in rest ==> exists k :: 0 <= k < |items| && items[k].0 == f
      decreases rest
    {
      var f :| f in rest;
      var before := items;
      items := items + [(f, m[f])];
      rest := rest - {f};
      forall g | g in m && g !in rest
        ensures exists k :: 0 <= k < |items| && items[k].0 == g
      {
        if g == f {
          assert items[|before|].0 == g;
        } else {
          var k :| 0 <= k < |before| && before[k].0 == g;
          assert items[k].0 == g;
        }
      }
    }
  }

  /** A dict's item list is empty exactly when the dict is, so a cluster
      heartbeat event carries an entry exactly when `if cluster_heartbeat`
      lets it through. */
  lemma ItemsEmpty(items: seq<(Value, Value)>, m: map<Value, Value>)
    requires ListsItems(items, m)
    ensures |items| == 0 <==> m == map[]
  {
    if |items| > 0 {
      assert items[0].0 in m;
    }
    if m != map[] {
      var f :| f in m;
      var k :| 0 <= k < |items| && items[k].0 == f;
    }
  }

  /** A subscriber inside listen receives what the generator emits while it
      listens: it subscribes, one event is emitted to every listening
      subscriber, it takes the head of its inbox, and it unsubscribes. */
  method ListenDuringEmit(bus: Generator, s: Subscriber, h: Events.Handlers, ev: Events.Event)
    returns (calls: seq<Events.Call>)
    requires bus.Valid() && s in bus.instances && s.subscribed >= 0
    modifies bus.instances
    ensures s.subscribed == old(s.subscribed)
    ensures s.events == (old(s.events) + [ev])[1..]
    ensures calls == Events.Dispatch(s.fqdn, h, (old(s.events) + [ev])[0])
    ensures forall i :: i in bus.instances && i != s ==> i.subscribed == old(i.subscribed)
    ensures forall i :: i in bus.instances && i != s ==>
      i.events == if old(i.subscribed) > 0 then old(i.events) + [ev] else old(i.events)
  {
    s.Subscribe();
    bus.Emit(ev);
    calls := s.TakeOne(h);
    s.Unsubscribe();
  }

  /** MonRemote: a subscriber with a listening count and a FIFO inbox,
      registered with the process-wide generator when it is made. */
  class Subscriber {
    var subscribed: int
    var events: seq<Events.Event>
    const fqdn: string
    const hostname: string
    const bus: Generator

    constructor (bus: Generator, fqdn: string, hostname: string)
      requires bus.Valid()
      modifies bus
      ensures this.bus == bus && this.fqdn == fqdn && this.hostname == hostname
      ensures subscribed == 0 && events == []
      ensures bus.Valid() && bus.jobs == old(bus.jobs) && bus.instances == old(bus.instances) + [this]
    {
      this.bus := bus;
      this.fqdn := fqdn;
      this.hostname := hostname;
      subscribed := 0;
      events := [];
      new;
      bus.Register(this);
    }

    /** put: the event goes to the tail of the inbox. */
    method Put(ev: Events.Event)
      modifies this
      ensures events == old(events) + [ev] && subscribed == old(subscribed)
    {
      events := events + [ev];
    }

    /** The start of listen: the listening count goes up (registering
        again is a no-op). */
    method Subscribe()
      modifies this
      ensures subscribed == old(subscribed) + 1 && events == old(events)
    {
      subscribed := subscribed + 1;
    }

    /** One pass of listen's loop that gets an event: the head of the inbox
        is taken and handed to the callbacks passed. */
    method TakeOne(h: Events.Handlers) returns (calls: seq<Events.Call>)
      requires events != []
      modifies this
      ensures subscribed == old(subscribed) && events == old(events)[1..]
      ensures calls == Events.Dispatch(fqdn, h, old(events)[0])
    {
      var ev := events[0];
      events := events[1..];
      calls := Events.Dispatch(fqdn, h, ev);
    }

    /** The end of listen, once `completion` is set. */
    method Unsubscribe()
      modifies this
      ensures subscribed == old(subscribed) - 1 && events == old(events)
    {
      subscribed := subscribed - 1;
    }

    /** listen until `completion` is seen set after `n` events already in
        the inbox: each is taken from the head and handed to the callbacks
        passed, and the listening count is back where it was on return. */
    method Listen(h: Events.Handlers, n: nat) returns (calls: seq<Events.Call>)
      requires n <= |events|
      modifies this
      ensures subscribed == old(subscribed)
      ensures events == old(events)[n..]
      ensures calls == Events.DispatchAll(fqdn, h, old(events)[..n])
    {
      Subscribe();
      calls := [];
      var taken := 0;
      while taken < n
        invariant 0 <= taken <= n
        invariant subscribed == old(subscribed) + 1
        invariant events == old(events)[taken..]
        invariant calls == Events.DispatchAll(fqdn, h, old(events)[..taken])
      {
        var more := TakeOne(h);
        assert old(events)[..taken + 1][..taken] == old(events)[..taken];
        calls := calls + more;
        taken := taken + 1;
      }
      Unsubscribe();
    }

    /** run_job: hands the job to the generator. */
    method RunJob(fqdn: string, cmd: string, args: Value) returns (r: Result<string, Error>)
      requires bus.Valid()
      modifies bus
      ensures bus.Valid() && bus.instances == old(bus.instances)
      ensures r.Success? <==> fqdn == bus.localFqdn
      ensures r.Failure? ==> r.error == Unavailable("") && bus.jobs == old(bus.jobs)
      ensures r.Success? ==> r.value !in old(bus.jobs) && bus.jobs == old(bus.jobs)[r.value := Job(cmd, args)]
    {
      r := bus.RunJob(fqdn, cmd, args);
    }

    /** get_remote_metadata: this host's name for a request about exactly
        this host, an empty dict for every fqdn otherwise. */
    function RemoteMetadata(fqdns: seq<string>): (r: map<string, Value>)
      ensures forall f :: f in r <==> f in fqdns
      ensures fqdns == [fqdn] ==> r[fqdn] == Object(map["host" := Str(hostname)])
      ensures fqdns != [fqdn] ==> forall f :: f in r ==> r[f] == EmptyObject
    {
      if fqdns == [fqdn] then map[fqdn := Object(map["host" := Str(hostname)])]
      else map f | f in fqdns :: EmptyObject
    }
  }
}
