/** Running monitor commands through the cluster client: one command with
    its outcome classified (rados_command), and an ordered batch that stops at
    the first failing command (rados_commands).  The client itself is not
    modelled: each call's reply is given to the model. */
module Rados {
  import opened Wrappers
  import opened Json

  /** What json_command hands back: the return code, the output buffer and
      the status text.  `decoded` is what json.loads makes of the buffer
      (None when it would raise). */
  datatype Reply = Reply(ret: int, outbuf: string, decoded: Option<Value>, outs: string)

  /** The argument dict sent with a command.  rados_command builds it from a
      copy of the caller's dict, so the caller's own dict is never changed
      (the values here are immutable anyway). */
  function JsonArgs(args: map<string, Value>): (r: map<string, Value>)
    ensures r.Keys == args.Keys + {"format"}
    ensures r["format"] == Str("json")
    ensures forall k :: k in args && k != "format" ==> r[k] == args[k]
  {
    args["format" := Str("json")]
  }

  /** What rados_command returns: the decoded document (None for an empty
      buffer) when asked to decode, the raw buffer otherwise. */
  datatype Output = Decoded(doc: Option<Value>) | Raw(text: string)

  /** The text of the error rados_command raises for undecodable output.  The
      source appends the repr of the argument dict, which is not modelled. */
  const InvalidJsonText: string := "Invalid JSON output for command "

  /** rados_command, given the reply json_command returned for the request
      (prefix, JsonArgs(args)).  A caller passing args=None passes map[]. */
  function RadosCommand(decode: bool, reply: Reply): (r: Result<Output, Error>)
    ensures r.Failure? <==> reply.ret != 0 || (decode && reply.outbuf != "" && reply.decoded.None?)
    ensures reply.ret != 0 ==> r == Failure(RadosError(reply.outs))
    ensures r.Success? && !decode ==> r.value == Raw(reply.outbuf)
  {
    if reply.ret != 0 then Failure(RadosError(reply.outs))
    else if !decode then Success(Raw(reply.outbuf))
    else if reply.outbuf == "" then Success(Decoded(None))
    else if reply.decoded.Some? then Success(Decoded(reply.decoded))
    else Failure(RadosError(InvalidJsonText))
  }

  /** rados_command(..., decode=True) as the caller sees it: the decoded
      document, or Python's None (Null) for an empty buffer. */
  function RadosDoc(reply: Reply): (r: Result<Value, Error>)
    ensures r.Success? <==> RadosCommand(true, reply).Success?
    ensures r.Failure? ==> Failure(r.error) == RadosCommand(true, reply)
    ensures r.Success? ==> r.value == if reply.outbuf == "" then Null else reply.decoded.value
  {
    match RadosCommand(true, reply)
    case Failure(e) => Failure(e)
    case Success(o) => Success(if o.Decoded? && o.doc.Some? then o.doc.value else Null)
  }

  /** rados_command(..., decode=False): the raw buffer. */
  function RadosText(reply: Reply): (r: Result<string, Error>)
    ensures r.Success? <==> reply.ret == 0
    ensures r.Success? ==> r.value == reply.outbuf
    ensures r.Failure? ==> r.error == RadosError(reply.outs)
  {
    match RadosCommand(false, reply)
    case Failure(e) => Failure(e)
    case Success(o) => Success(if o.Raw? then o.text else "")
  }

  /** The request rados_command submits for a prefix and argument dict. */
  function CommandRequest(prefix: string, args: map<string, Value>): Request {
    Request(prefix, JsonArgs(args), "")
  }

  /** The cluster, as far as this model sees it: the reply it gives each
      request submitted through json_command. */
  type Ask = Request -> Reply

  /** json.loads raises on an empty buffer, so a reply never decodes one. */
  predicate WellFormed(r: Reply) { r.outbuf == "" ==> r.decoded.None? }

  // ---------------------------------------------------------------------
  // rados_commands
  // ---------------------------------------------------------------------

  /** One command of a batch: a prefix and its argument dict. */
  datatype Command = Command(prefix: string, args: map<string, Value>)

  /** A crushtool run: return code, standard output, standard error. */
  datatype ToolRun = ToolRun(ret: int, stdout: string, stderr: string)

  /** What the environment does for one command of the batch: the outcome of
      compiling its crush map (consulted only for 'osd setcrushmap') and the
      reply json_command gives to its submission. */
  datatype Step = Step(compile: ToolRun, reply: Reply)

  /** A submission to json_command: prefix, argument dict, input buffer. */
  datatype Request = Request(prefix: string, args: map<string, Value>, inbuf: string)

  /** The dict rados_commands returns. */
  datatype BatchReport = BatchReport(error: bool, results: seq<Option<Value>>, errorStatus: string,
                                     versions: Value, fsid: string)

  /** The returned dict or the exception, with the requests submitted. */
  datatype Run = Run(outcome: Result<BatchReport, Error>, sent: seq<Request>)

  const SetCrushMap: string := "osd setcrushmap"

  /** The request submitted for a command, or the exception raised before it
      is submitted: 'osd setcrushmap' compiles its 'data' text first and sends
      the compiled map as input buffer with an empty argument dict. */
  function Prepare(c: Command, s: Step): Result<Request, Error> {
    if c.prefix == SetCrushMap then
      if "data" !in c.args then Failure(KeyError("data"))
      else if s.compile.ret != 0 then Failure(RuntimeError(s.compile.stderr))
      else Success(Request(c.prefix, map[], s.compile.stdout))
    else Success(Request(c.prefix, JsonArgs(c.args), ""))
  }

  /** What a successful reply adds to 'results': None for an empty buffer. */
  function Recorded(r: Reply): Option<Value> {
    if r.outbuf == "" then None else r.decoded
  }

  /** json.loads accepts the buffer (an empty one is never decoded). */
  predicate Decodes(r: Reply) { r.outbuf == "" || r.decoded.Some? }

  /** A command that is submitted, succeeds and whose output decodes. */
  predicate Clean(c: Command, s: Step) {
    Prepare(c, s).Success? && s.reply.ret == 0 && Decodes(s.reply)
  }

  /** The index of the first command that is not clean (|cs| if none). */
  function FirstUnclean(cs: seq<Command>, ss: seq<Step>): (k: nat)
    requires |cs| == |ss|
    ensures k <= |cs|
    ensures forall j :: 0 <= j < k ==> Clean(cs[j], ss[j])
    ensures k < |cs| ==> !Clean(cs[k], ss[k])
  {
    if cs == [] then 0
    else if !Clean(cs[0], ss[0]) then 0
    else 1 + FirstUnclean(cs[1..], ss[1..])
  }

  /** The report built once cluster_status has been asked for the versions;
      its exception propagates. */
  function Finish(error: bool, results: seq<Option<Value>>, errorStatus: string,
                  status: Result<Value, Error>, fsid: string): Result<BatchReport, Error>
  {
    match status
    case Failure(e) => Failure(e)
    case Success(v) => Success(BatchReport(error, results, errorStatus, v, fsid))
  }

  /** The batch, stated by where it stops: every command before the first
      unclean one is submitted and contributes its output; that command either
      raises before submission, returns nonzero (an error report) or yields
      undecodable output (json.loads raises). */
  function Batch(fsid: string, cs: seq<Command>, ss: seq<Step>, status: Result<Value, Error>): Run
    requires |cs| == |ss|
  {
    var k := FirstUnclean(cs, ss);
    var done := seq(k, j requires 0 <= j < k => Recorded(ss[j].reply));
    var sent := seq(k, j requires 0 <= j < k => Prepare(cs[j], ss[j]).value);
    if k == |cs| then Run(Finish(false, done, "", status, fsid), sent)
    else
      match Prepare(cs[k], ss[k])
      case Failure(e) => Run(Failure(e), sent)
      case Success(req) =>
        if ss[k].reply.ret != 0 then Run(Finish(true, done, ss[k].reply.outs, status, fsid), sent + [req])
        else Run(Failure(ValueError(ss[k].reply.outbuf)), sent + [req])
  }

  /** rados_commands over the given environment: `steps[i]` is what the i-th
      command meets, `status` what cluster_status yields after the batch. */
  method RadosCommands(fsid: string, commands: seq<Command>, steps: seq<Step>, status: Result<Value, Error>)
    returns (outcome: Result<BatchReport, Error>, sent: seq<Request>)
    requires |steps| == |commands|
    ensures Run(outcome, sent) == Batch(fsid, commands, steps, status)
  {
    var results: seq<Option<Value>> := [];
    sent := [];
    var i := 0;
    while i < |commands|
      invariant 0 <= i <= |commands|
      invariant forall j :: 0 <= j < i ==> Clean(commands[j], steps[j])
      invariant results == seq(i, j requires 0 <= j < i => Recorded(steps[j].reply))
      invariant sent == seq(i, j requires 0 <= j < i => Prepare(commands[j], steps[j]).value)
    {
      var c := commands[i];
      var argdict := c.args["format" := Str("json")];
      if c.prefix == SetCrushMap {
        if "data" !in argdict {
          return Failure(KeyError("data")), sent;
        }
        var tool := steps[i].compile;
        if tool.ret != 0 {
          return Failure(RuntimeError(tool.stderr)), sent;
        }
        sent := sent + [Request(c.prefix, map[], tool.stdout)];
      } else {
        sent := sent + [Request(c.prefix, argdict, "")];
      }
      var reply := steps[i].reply;
      if reply.ret != 0 {
        outcome := Finish(true, results, reply.outs, status, fsid);
        return;
      }
      if reply.outbuf != "" {
        if reply.decoded.None? {
          return Failure(ValueError(reply.outbuf)), sent;
        }
        results := results + [reply.decoded];
      } else {
        results := results + [None];
      }
      i := i + 1;
    }
    outcome := Finish(false, results, "", status, fsid);
  }

  // ---------------------------------------------------------------------
  // What the batch reports
  // ---------------------------------------------------------------------

  /** A returned report has 'error' set exactly when some command of the
      batch returned nonzero. */
  lemma BatchErrorIff(fsid: string, cs: seq<Command>, ss: seq<Step>, status: Result<Value, Error>)
    requires |cs| == |ss| && Batch(fsid, cs, ss, status).outcome.Success?
    ensures Batch(fsid, cs, ss, status).outcome.value.error
            <==> exists i :: 0 <= i < |cs| && ss[i].reply.ret != 0
  {
    var k := FirstUnclean(cs, ss);
    if exists i :: 0 <= i < |cs| && ss[i].reply.ret != 0 {
      var i :| 0 <= i < |cs| && ss[i].reply.ret != 0;
      assert !Clean(cs[i], ss[i]);
      assert k <= i;
    }
  }

  /** An error report holds the outputs of the commands before the first
      nonzero return, in order, and that command's status text; a success
      report holds one output per command and an empty status text.  Both
      carry the versions snapshot taken after the batch. */
  lemma BatchResults(fsid: string, cs: seq<Command>, ss: seq<Step>, status: Result<Value, Error>)
    requires |cs| == |ss| && Batch(fsid, cs, ss, status).outcome.Success?
    ensures var rep := Batch(fsid, cs, ss, status).outcome.value;
      && status == Success(rep.versions) && rep.fsid == fsid
      && (rep.error ==>
            exists k :: 0 <= k < |cs| && ss[k].reply.ret != 0
              && (forall j :: 0 <= j < k ==> ss[j].reply.ret == 0)
              && |rep.results| == k
              && (forall j :: 0 <= j < k ==> rep.results[j] == Recorded(ss[j].reply))
              && rep.errorStatus == ss[k].reply.outs)
      && (!rep.error ==>
            && |rep.results| == |cs|
            && (forall j :: 0 <= j < |cs| ==> rep.results[j] == Recorded(ss[j].reply))
            && rep.errorStatus == "")
  {
    var k := FirstUnclean(cs, ss);
    var rep := Batch(fsid, cs, ss, status).outcome.value;
    if rep.error {
      assert k < |cs| && ss[k].reply.ret != 0;
      assert forall j :: 0 <= j < k ==> ss[j].reply.ret == 0;
    }
  }

  /** The batch submits its commands in order, each as Prepare builds it, and
      nothing after the command it stops at; a command whose compilation (or
      'data' lookup) fails is not submitted at all. */
  lemma BatchSubmissions(fsid: string, cs: seq<Command>, ss: seq<Step>, status: Result<Value, Error>)
    requires |cs| == |ss|
    ensures var run := Batch(fsid, cs, ss, status);
      && |run.sent| <= |cs|
      && (forall j :: 0 <= j < |run.sent| ==> Prepare(cs[j], ss[j]) == Success(run.sent[j]))
      && (|run.sent| < |cs| && Prepare(cs[|run.sent|], ss[|run.sent|]).Success? ==>
            exists j :: 0 <= j < |run.sent| && !Clean(cs[j], ss[j]))
  {
    var k := FirstUnclean(cs, ss);
    var run := Batch(fsid, cs, ss, status);
    if |run.sent| < |cs| && Prepare(cs[|run.sent|], ss[|run.sent|]).Success? {
      assert |run.sent| == k + 1;
      assert !Clean(cs[k], ss[k]);
    }
  }

  /** rados_command classifies a reply as the batch does: decoding succeeds
      exactly for the replies the batch records, with the same value. */
  lemma SingleAgreesWithBatch(reply: Reply, doc: Option<Value>)
    ensures RadosCommand(true, reply) == Success(Decoded(doc))
            <==> reply.ret == 0 && Decodes(reply) && doc == Recorded(reply)
  {
  }

  /** Three commands where the second fails: the batch stops after it,
      reports only the first output and the second's status text, and never
      submits the third. */
  lemma StopsAtFirstFailure(fsid: string, versions: Value)
    ensures var a := Step(ToolRun(0, "", ""), Reply(0, "[]", Some(List([])), ""));
            var b := Step(ToolRun(0, "", ""), Reply(-22, "", None, "invalid pool"));
            var cs := [Command("osd pool create", map[]), Command("osd pool set", map[]),
                       Command("osd pool delete", map[])];
            var run := Batch(fsid, cs, [a, b, a], Success(versions));
            && run.outcome == Success(BatchReport(true, [Some(List([]))], "invalid pool", versions, fsid))
            && |run.sent| == 2
  {
    var a := Step(ToolRun(0, "", ""), Reply(0, "[]", Some(List([])), ""));
    var b := Step(ToolRun(0, "", ""), Reply(-22, "", None, "invalid pool"));
    var cs := [Command("osd pool create", map[]), Command("osd pool set", map[]),
               Command("osd pool delete", map[])];
    assert Clean(cs[0], a) && !Clean(cs[1], b);
    assert FirstUnclean(cs, [a, b, a]) == 1;
    assert Prepare(cs[1], b).Success?;
    var done := seq(1, j requires 0 <= j < 1 => Recorded([a, b, a][j].reply));
    assert done == [Some(List([]))];
  }
}
