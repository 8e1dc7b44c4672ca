/** The lock-step protocol carrying the real messages: which request of which call the daemon ran,
    and whose answer a caller was given. */
module Delivery {
  import opened Bytes
  import opened Daemon
  import opened Envelopes
  import opened Json
  import opened LockStep
  import opened Matching
  import opened Truncation

  lemma TextOfTagged(s: string, src: nat, line: seq<Octet>)
    requires line <= Tagged(s, src)
    ensures Text(line) <= s && (line == Tagged(s, src) ==> Text(line) == s)
  {
  }

  /** A log entry of a server that prints its handler's answer to what it read, or 400. */
  predicate AnsweredWith(version: string, wording: Cause -> string, x: LockStep.Exec, resp: Response) {
    && x.reply == Some(Print(Obj(RustEnvelope(version, wording, resp))))
    && match ServerReads(Text(x.line))
       case None => resp == Error(400, BadJson)
       case Some(req) => RightKind(req, resp)
  }

  ghost predicate Faithful(version: string, wording: Cause -> string, s: Net) {
    forall e :: 0 <= e < |s.log| && s.log[e].reply.Some? ==>
      exists resp :: AnsweredWith(version, wording, s.log[e], resp)
  }

  /** Call `i` was made with the request `r`, none of whose required slices is nil. */
  predicate Asked(s: Net, i: nat, r: GoRequest)
    requires i < |s.calls|
  {
    s.calls[i].payload == Print(Obj(GoEnvelope(r))) && !NilWhereNeeded(r)
  }

  /** What a call that got a line returns to its caller is the whole payload of the response the server
      gave to that call's request, read as that request and taken up only that once; whatever other
      calls, failures, timeouts, partial writes and reconnections the run contains. */
  lemma ReturnedIsOwnAnswer(version: string, wording: Cause -> string, run: seq<Event>, i: nat, r: GoRequest)
    returns (e: nat, resp: Response)
    requires i < |Run(START, run).calls| && Run(START, run).calls[i].status.Returned?
    requires Asked(Run(START, run), i, r) && Faithful(version, wording, Run(START, run))
    ensures var s := Run(START, run);
      && e < |s.log| && CallOf(s.log[e]) == i && AnsweredWith(version, wording, s.log[e], resp)
      && ServerReads(Text(s.log[e].line)) == Some(Meant(r))
      && ClientReads(r, Text(s.calls[i].status.line)) == Delivered(version, wording, resp)
      && forall d :: 0 <= d < |s.log| && CallOf(s.log[d]) == i ==> d == e
  {
    var s := Run(START, run);
    e := AnswerBelongsToCall(run, i);
    assert s.log[e].line[0].src == i;
    resp :| AnsweredWith(version, wording, s.log[e], resp);
    TextOfTagged(s.calls[i].payload + "\n", i, s.log[e].line);
    TextOfTagged(s.log[e].reply.value + "\n", e, s.calls[i].status.line);
    RequestAgreement(r);
    ResponseAgreement(version, wording, r, resp);
  }

  /** Whatever became of a call, what the server took up of it is at most one line, and it read that
      line as the call's own request or refused it as malformed. */
  lemma ExecutedAsMeant(run: seq<Event>, i: nat, r: GoRequest, d: nat, e: nat)
    requires i < |Run(START, run).calls| && Asked(Run(START, run), i, r)
    requires d < |Run(START, run).log| && e < |Run(START, run).log|
    requires CallOf(Run(START, run).log[d]) == i && CallOf(Run(START, run).log[e]) == i
    ensures d == e
    ensures ServerReads(Text(Run(START, run).log[e].line)) in {None, Some(Meant(r))}
  {
    var s := Run(START, run);
    AtMostOnce(run, i, d, e);
    TextOfTagged(s.calls[i].payload + "\n", i, s.log[e].line);
    CutRequest(r, Text(s.log[e].line));
  }
}
