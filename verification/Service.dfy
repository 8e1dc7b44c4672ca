/** What the whole deployment gives its callers: every call that returns has the answer of one daemon
    task of its own, in an order of execution that all callers agree on and that respects real time. */
module Service {
  import opened Bytes
  import opened Crypto
  import opened Daemon
  import opened Delivery
  import opened Deployment
  import opened Envelopes
  import opened Json
  import opened Linearizability
  import opened Matching
  import opened Truncation
  import DaemonRuns
  import EndToEnd
  import Gcm
  import I = Interleaving
  import L = LockStep

  /** How the server is built: its printer's version string and wording, on a block cipher. */
  datatype Build = Build(c: Gcm.Cipher, version: string, wording: Cause -> string)

  function CodecOf(b: Build): Codec {
    Codec(line => ServerReads(line), resp => Print(Obj(RustEnvelope(b.version, b.wording, resp))))
  }

  function After(b: Build, run: seq<Event>): World {
    Run(CodecOf(b), I.DaemonHandler(b.c), START, run)
  }

  /** The daemon's part of a run, and its requests in the order in which they take effect. */
  function DaemonTrace(b: Build, run: seq<Event>): seq<I.Event> {
    SysTrace(CodecOf(b), I.DaemonHandler(b.c), START, run)
  }

  function Order(b: Build, run: seq<Event>): seq<Entry> {
    Log(I.DaemonHandler(b.c), DaemonAccount(b.c), I.IDLE, DaemonTrace(b, run))
  }

  function CellBefore(b: Build, run: seq<Event>, j: nat): Option<KeyHandle>
    requires j <= |Order(b, run)|
  {
    Replay(DaemonAccount(b.c), Order(b, run), j)
  }

  /** Task `t` is the daemon's execution of call `i`. */
  predicate Executes(w: World, i: nat, t: nat) {
    exists e :: 0 <= e < |w.net.log| && e < |w.origin| && CallOf(w.net.log[e]) == i && w.origin[e] == Some(t)
  }

  predicate Returned(w: World, i: nat, r: GoRequest) {
    i < |w.net.calls| && w.net.calls[i].status.Returned? && Asked(w.net, i, r)
  }

  lemma Facts(b: Build, run: seq<Event>)
    ensures var w := After(b, run);
      && Linked(CodecOf(b), w) && Inv(w.net)
      && w.sys == I.Exec(I.DaemonHandler(b.c), I.IDLE, DaemonTrace(b, run))
      && exists net :: w.net == L.Run(L.START, net)
  {
    Halves(CodecOf(b), I.DaemonHandler(b.c), START, run);
    RunLinked(CodecOf(b), I.DaemonHandler(b.c), START, run);
    StartInv();
    RunKeeps(L.START, NetTrace(CodecOf(b), I.DaemonHandler(b.c), START, run));
  }

  /** The line of a returned call was read as its request, and its reply printed from a task's answer. */
  lemma OwnTask(b: Build, run: seq<Event>, i: nat, r: GoRequest) returns (e: nat, t: nat)
    requires Returned(After(b, run), i, r)
    ensures var w := After(b, run);
      && e < |w.net.log| == |w.origin| && CallOf(w.net.log[e]) == i && w.origin[e] == Some(t)
      && t < |w.sys.tasks| && w.sys.tasks[t].req == Meant(r) && w.sys.tasks[t].pc.Done?
      && L.Text(w.net.calls[i].status.line) == ToLine(Obj(RustEnvelope(b.version, b.wording, w.sys.tasks[t].pc.resp)))
  {
    var w := After(b, run);
    Facts(b, run);
    var net :| w.net == L.Run(L.START, net);
    e := AnswerBelongsToCall(net, i);
    assert w.net.log[e].line[0].src == i;
    assert EntryLinked(CodecOf(b), w, e);
    TextOfTagged(w.net.calls[i].payload + "\n", i, w.net.log[e].line);
    TextOfTagged(w.net.log[e].reply.value + "\n", e, w.net.calls[i].status.line);
    RequestAgreement(r);
    t := w.origin[e].value;
  }

  /** A call that returns has been executed by a task of its own; what its caller is handed is that task's
      response, whole; and that response is the one-cell daemon's at the task's place in the order, up to
      an algorithm mismatch. All this over partial writes and reads, failures, timeouts, reconnections,
      other callers, other clients, and overlapping rotations. */
  lemma ReturnedCallLinearized(b: Build, run: seq<Event>, i: nat, r: GoRequest) returns (t: nat, j: nat)
    requires Returned(After(b, run), i, r)
    ensures var w := After(b, run);
      && Executes(w, i, t) && t < |w.sys.tasks| && w.sys.tasks[t].pc.Done?
      && ClientReads(r, L.Text(w.net.calls[i].status.line)) == Delivered(b.version, b.wording, w.sys.tasks[t].pc.resp)
      && StandsAt(Order(b, run), t, Meant(r), j)
      && Agrees(b.c, CellBefore(b, run, j), Meant(r), w.sys.tasks[t].pc.resp)
  {
    var e;
    e, t := OwnTask(b, run, i, r);
    Facts(b, run);
    j := Linearizable(b.c, DaemonTrace(b, run), t);
    EndToEnd.AnswersOfRightKind(b.c, DaemonTrace(b, run), t);
    ResponseAgreement(b.version, b.wording, r, After(b, run).sys.tasks[t].pc.resp);
  }

  /** Whatever became of a call, at most one task executes it, and that task's request is the call's; and
      no task executes two calls. */
  lemma ExecutedAtMostOnce(b: Build, run: seq<Event>, i: nat, r: GoRequest, t: nat, i': nat, t': nat)
    requires i < |After(b, run).net.calls| && Asked(After(b, run).net, i, r)
    requires Executes(After(b, run), i, t) && Executes(After(b, run), i', t')
    ensures t < |After(b, run).sys.tasks| && After(b, run).sys.tasks[t].req == Meant(r)
    ensures i == i' <==> t == t'
  {
    var w := After(b, run);
    Facts(b, run);
    var net :| w.net == L.Run(L.START, net);
    var d :| 0 <= d < |w.net.log| && CallOf(w.net.log[d]) == i && w.origin[d] == Some(t);
    var d' :| 0 <= d' < |w.net.log| && CallOf(w.net.log[d']) == i' && w.origin[d'] == Some(t');
    assert EntryLinked(CodecOf(b), w, d);
    ExecutedAsMeant(net, i, r, d, d);
    if i == i' {
      ExecutedAsMeant(net, i, r, d, d');
    }
  }

  lemma LaterRun(b: Build, first: seq<Event>, second: seq<Event>)
    ensures Later(After(b, first), After(b, first + second))
    ensures After(b, first).sys == I.Exec(I.DaemonHandler(b.c), I.IDLE, DaemonTrace(b, first))
    ensures DaemonTrace(b, first) <= DaemonTrace(b, first + second)
    ensures I.Extends(After(b, first).sys, After(b, first + second).sys)
  {
    var x, h := CodecOf(b), I.DaemonHandler(b.c);
    RunConcat(x, h, START, first, second);
    Facts(b, first);
    Facts(b, first + second);
    RunLater(x, h, After(b, first), second);
    SysTraceConcat(x, h, START, first, second);
    var rest := SysTrace(x, h, After(b, first), second);
    I.ExecConcat(h, I.IDLE, DaemonTrace(b, first), rest);
    I.ExecExtends(h, After(b, first).sys, rest);
  }

  lemma LaterExecution(w: World, w': World, i: nat, t: nat)
    requires Later(w, w') && |w.origin| == |w.net.log| && Executes(w', i, t)
    requires forall e :: 0 <= e < |w.net.log| ==> CallOf(w.net.log[e]) != i
    ensures t >= |w.sys.tasks|
  {
    var e :| 0 <= e < |w'.net.log| && e < |w'.origin| && CallOf(w'.net.log[e]) == i && w'.origin[e] == Some(t);
  }

  lemma LoggedCallsExist(s: L.Net, e: nat)
    requires Inv(s) && e < |s.log|
    ensures CallOf(s.log[e]) < |s.calls|
  {
    assert EntryOk(s, e);
  }

  /** A call that was not made yet is executed by a task that had not arrived yet. */
  lemma NotYetExecuted(b: Build, first: seq<Event>, second: seq<Event>, i: nat, t: nat)
    requires i >= |After(b, first).net.calls| && Executes(After(b, first + second), i, t)
    ensures t >= |After(b, first).sys.tasks|
  {
    var w := After(b, first);
    LaterRun(b, first, second);
    Facts(b, first);
    forall e | 0 <= e < |w.net.log| ensures CallOf(w.net.log[e]) != i {
      LoggedCallsExist(w.net, e);
    }
    LaterExecution(w, After(b, first + second), i, t);
  }

  /** A call that has returned keeps its task, and its task its place. */
  lemma StillExecuted(b: Build, first: seq<Event>, second: seq<Event>, i: nat, r: GoRequest) returns (t: nat, j: nat)
    requires Returned(After(b, first), i, r)
    ensures t < |After(b, first).sys.tasks| && After(b, first).sys.tasks[t].pc.Done?
    ensures Executes(After(b, first + second), i, t) && StandsAt(Order(b, first + second), t, Meant(r), j)
  {
    var e;
    e, t := OwnTask(b, first, i, r);
    LaterRun(b, first, second);
    Facts(b, first + second);
    assert CallOf(After(b, first + second).net.log[e]) == i;
    j := Linearizable(b.c, DaemonTrace(b, first + second), t);
  }

  lemma TasksInRealTime(b: Build, first: seq<Event>, second: seq<Event>, t: nat, j: nat, t': nat, j': nat)
    requires t < |After(b, first).sys.tasks| <= t' && After(b, first).sys.tasks[t].pc.Done?
    requires var order := Order(b, first + second);
      j < |order| && j' < |order| && order[j].task == t && order[j'].task == t'
    ensures j < j'
  {
    LaterRun(b, first, second);
    var trace := DaemonTrace(b, first + second);
    var rest := trace[|DaemonTrace(b, first)|..];
    assert trace == DaemonTrace(b, first) + rest;
    DaemonRuns.AnswersRespectRealTime(b.c, DaemonTrace(b, first), rest, t, j, j');
  }

  /** Callers agree on one order, and it respects real time: if a call has returned before another is
      made, its task takes effect before the other's. */
  lemma CallsInRealTime(b: Build, first: seq<Event>, second: seq<Event>, i: nat, r: GoRequest, i': nat, r': GoRequest)
    returns (t: nat, j: nat, t': nat, j': nat)
    requires Returned(After(b, first), i, r)
    requires i' >= |After(b, first).net.calls| && Returned(After(b, first + second), i', r')
    ensures var w := After(b, first + second);
      && Executes(w, i, t) && StandsAt(Order(b, first + second), t, Meant(r), j)
      && Executes(w, i', t') && StandsAt(Order(b, first + second), t', Meant(r'), j')
      && j < j'
  {
    t, j := StillExecuted(b, first, second, i, r);
    t', j' := ReturnedCallLinearized(b, first + second, i', r');
    NotYetExecuted(b, first, second, i', t');
    TasksInRealTime(b, first, second, t, j, t', j');
  }
}
