/** What the deployment gives its callers besides safety: whatever has happened, a call can still be made
    and be given the answer of its own task. */
module Fulfilment {
  import opened Bytes
  import opened Completion
  import opened Daemon
  import opened Delivery
  import opened Deployment
  import opened Envelopes
  import opened Json
  import opened Matching
  import opened Service
  import I = Interleaving
  import L = LockStep
  import Lines
  import P = Progress

  // ---- events of one part alone ----

  function OnNetwork(run: seq<L.Event>): seq<Event> {
    if run == [] then [] else [Network(run[0])] + OnNetwork(run[1..])
  }

  function AtWork(run: seq<I.Event>): seq<Event>
    requires forall e :: e in run ==> e.Run?
  {
    if run == [] then [] else [Work(run[0].task, run[0].clock)] + AtWork(run[1..])
  }

  lemma {:induction false} NetworkAlone(x: Codec, h: I.Handler, w: World, run: seq<L.Event>)
    requires forall e :: e in run ==> IsNetwork(e)
    ensures Run(x, h, w, OnNetwork(run)) == World(L.Run(w.net, run), w.sys, w.origin)
    decreases |run|
  {
    if run != [] {
      LogStep(w.net, run[0]);
      assert OnNetwork(run)[1..] == OnNetwork(run[1..]);
      NetworkAlone(x, h, Apply(x, h, w, Network(run[0])), run[1..]);
    }
  }

  lemma {:induction false} WorkAlone(x: Codec, h: I.Handler, w: World, run: seq<I.Event>)
    requires forall e :: e in run ==> e.Run?
    ensures Run(x, h, w, AtWork(run)) == World(w.net, I.Exec(h, w.sys, run), w.origin)
    decreases |run|
  {
    if run != [] {
      assert AtWork(run)[1..] == AtWork(run[1..]);
      WorkAlone(x, h, Apply(x, h, w, Work(run[0].task, run[0].clock)), run[1..]);
    }
  }

  lemma {:induction false} BusyRuns(h: I.Handler, s: I.Sys, run: seq<I.Event>)
    requires P.Busy(h, s, run)
    ensures forall e :: e in run ==> e.Run?
    decreases |run|
  {
    if run != [] {
      BusyRuns(h, I.Apply(h, s, run[0]), run[1..]);
    }
  }

  lemma OneMoreEvent(x: Codec, h: I.Handler, w: World, run: seq<Event>, e: Event)
    ensures Run(x, h, w, run + [e]) == Apply(x, h, Run(x, h, w, run), e)
  {
    RunConcat(x, h, w, run, [e]);
    assert [e][1..] == [];
  }

  // ---- one call, exactly ----

  /** What the daemon has and knows of it when the line of call `i` has been taken up. */
  function Arrived(x: Codec, w: World, i: nat): World
    requires i < |w.net.calls| && Available(w.net)
  {
    var line := L.RequestLine(w.net, i);
    var taken := FRESH.(server := L.Handling(|w.net.log|));
    var net := During(w.net, i, L.Receiving, taken, w.net.log + [L.Exec(line, None)]);
    match x.parse(L.Text(line))
    case Some(req) =>
      World(net, w.sys.(tasks := w.sys.tasks + [I.Task(req, I.Start)]), w.origin + [Some(|w.sys.tasks|)])
    case None => World(net, w.sys, w.origin + [None])
  }

  lemma CanArrive(x: Codec, h: I.Handler, w: World, i: nat) returns (run: seq<Event>)
    requires MayBegin(w.net, i) && |w.origin| == |w.net.log|
    ensures Run(x, h, w, run) == Arrived(x, w, i)
  {
    var sends := Requested(w.net, i);
    NetworkAlone(x, h, w, sends);
    assert CallOk(w.net, i);
    TakenUp(w.net, i);
    run := OnNetwork(sends) + [TakeUp(Chosen(w.net))];
    OneMoreEvent(x, h, w, OnNetwork(sends), TakeUp(Chosen(w.net)));
  }

  /** The daemon works until the call's task, if it has one, has its answer. */
  lemma CanBeDone(x: Codec, h: I.Handler, w: World, i: nat, clock: u64) returns (run: seq<Event>, sys: I.Sys)
    requires i < |w.net.calls| && Available(w.net) && |w.origin| == |w.net.log|
    requires P.WellBehaved(h) && P.LocksConsistent(w.sys)
    ensures Run(x, h, Arrived(x, w, i), run) == Arrived(x, w, i).(sys := sys)
    ensures match x.parse(L.Text(L.RequestLine(w.net, i)))
      case Some(req) =>
        var t := |w.sys.tasks|; t < |sys.tasks| && sys.tasks[t].req == req && sys.tasks[t].pc.Done?
      case None => sys == w.sys
  {
    var start := Arrived(x, w, i);
    run, sys := [], start.sys;
    if x.parse(L.Text(L.RequestLine(w.net, i))).Some? {
      var work := P.RequestCanFinish(h, start.sys, |w.sys.tasks|, clock);
      BusyRuns(h, start.sys, work);
      WorkAlone(x, h, start, work);
      I.ExecExtends(h, start.sys, work);
      run, sys := AtWork(work), I.Exec(h, start.sys, work);
    }
  }

  /** The response is written back and the call returns it. */
  lemma CanReturn(x: Codec, h: I.Handler, w: World, i: nat, sys: I.Sys, resp: Response) returns (run: seq<Event>)
    requires MayBegin(w.net, i) && |w.origin| == |w.net.log| && Lines.OneLine(x.show(resp))
    requires ResponseTo(Arrived(x, w, i).(sys := sys), |w.origin|) == Some(resp)
    ensures Run(x, h, Arrived(x, w, i).(sys := sys), run)
         == World(Served(w.net, i, x.show(resp)), sys, Arrived(x, w, i).origin)
  {
    var k, start := Chosen(w.net), Arrived(x, w, i).(sys := sys);
    Replied(w.net, i, x.show(resp));
    var answered := Apply(x, h, start, Reply(k));
    LogStep(start.net, L.ServerAnswer(k, x.show(resp)));
    var last := ReplyArrives(w.net, i, x.show(resp));
    NetworkAlone(x, h, answered, last);
    run := [Reply(k)] + OnNetwork(last);
    assert run[1..] == OnNetwork(last);
  }

  /** From every state with the client's mutex free and a server that reads, a waiting call can return the
      printed answer of a new task of its own, or the refusal of its line, whatever other tasks are doing. */
  lemma CallCanBeAnswered(x: Codec, h: I.Handler, w: World, i: nat, clock: u64)
    returns (run: seq<Event>, resp: Response)
    requires MayBegin(w.net, i) && |w.origin| == |w.net.log|
    requires P.WellBehaved(h) && P.LocksConsistent(w.sys) && forall r :: Lines.OneLine(x.show(r))
    ensures var end := Run(x, h, w, run);
      && end.net == Served(w.net, i, x.show(resp)) && end.origin == Arrived(x, w, i).origin
      && match x.parse(L.Text(L.RequestLine(w.net, i)))
         case Some(req) =>
           |w.sys.tasks| < |end.sys.tasks| && end.sys.tasks[|w.sys.tasks|] == I.Task(req, I.Done(resp))
         case None => resp == Error(400, BadJson)
  {
    run := CanArrive(x, h, w, i);
    var work, sys := CanBeDone(x, h, w, i, clock);
    RunConcat(x, h, w, run, work);
    resp := ResponseTo(Arrived(x, w, i).(sys := sys), |w.origin|).value;
    var last := CanReturn(x, h, w, i, sys, resp);
    RunConcat(x, h, w, run + work, last);
    run := run + work + last;
  }

  /** The same for a call that has yet to be made. */
  lemma NewCallCanBeAnswered(x: Codec, h: I.Handler, w: World, payload: string, clock: u64)
    returns (run: seq<Event>, resp: Response)
    requires Inv(w.net) && w.net.mu.None? && Available(w.net) && Lines.OneLine(payload) && |w.origin| == |w.net.log|
    requires P.WellBehaved(h) && P.LocksConsistent(w.sys) && forall r :: Lines.OneLine(x.show(r))
    ensures var (i, line, end) := (|w.net.calls|, L.Tagged(payload + "\n", |w.net.calls|), Run(x, h, w, run));
      && |end.net.calls| == i + 1 && |end.net.log| == |w.net.log| + 1 && end.net.mu.None? && Available(end.net)
      && end.net.calls[i] == L.Call(payload, L.Returned(L.Tagged(x.show(resp) + "\n", |w.net.log|)))
      && end.net.log[|w.net.log|] == L.Exec(line, Some(x.show(resp)))
      && |end.origin| == |end.net.log|
      && match x.parse(L.Text(line))
         case Some(req) =>
           && |w.sys.tasks| < |end.sys.tasks| && end.sys.tasks[|w.sys.tasks|] == I.Task(req, I.Done(resp))
           && end.origin[|w.net.log|] == Some(|w.sys.tasks|)
         case None => resp == Error(400, BadJson) && end.origin[|w.net.log|] == None
  {
    var called := Apply(x, h, w, Network(L.Invoke(payload)));
    ApplyKeeps(w.net, L.Invoke(payload));
    LogStep(w.net, L.Invoke(payload));
    run, resp := CallCanBeAnswered(x, h, called, |w.net.calls|, clock);
    run := [Network(L.Invoke(payload))] + run;
    assert run[0] == Network(L.Invoke(payload)) && Apply(x, h, w, run[0]) == called;
  }

  // ---- from every reachable state ----

  lemma Reachable(b: Build, before: seq<Event>)
    ensures var w := After(b, before);
      Inv(w.net) && |w.origin| == |w.net.log| && P.LocksConsistent(w.sys) && P.WellBehaved(I.DaemonHandler(b.c))
  {
    Facts(b, before);
    P.DaemonWellBehaved(b.c);
    P.RunKeepsLocks(I.DaemonHandler(b.c), I.IDLE, DaemonTrace(b, before));
  }

  lemma ShowsOneLine(b: Build)
    ensures forall resp :: Lines.OneLine(CodecOf(b).show(resp))
  {
    forall resp ensures Lines.OneLine(CodecOf(b).show(resp)) {
      PrintedOneLine(Obj(RustEnvelope(b.version, b.wording, resp)));
    }
  }

  /** The line of a call as the server reads it. */
  lemma AskedLine(b: Build, r: GoRequest, i: nat)
    requires !NilWhereNeeded(r)
    ensures Lines.OneLine(Print(Obj(GoEnvelope(r))))
    ensures CodecOf(b).parse(L.Text(L.Tagged(Print(Obj(GoEnvelope(r))) + "\n", i))) == Some(Meant(r))
  {
    PrintedOneLine(Obj(GoEnvelope(r)));
    var line := Print(Obj(GoEnvelope(r))) + "\n";
    TextOfTagged(line, i, L.Tagged(line, i));
    RequestAgreement(r);
  }

  /** Call `i` has returned to its caller the answer of its own task `t`. */
  predicate Fulfilled(b: Build, w: World, i: nat, t: nat, r: GoRequest) {
    && Returned(w, i, r) && Executes(w, i, t)
    && t < |w.sys.tasks| && w.sys.tasks[t].req == Meant(r) && w.sys.tasks[t].pc.Done?
    && ClientReads(r, L.Text(w.net.calls[i].status.line)) == Delivered(b.version, b.wording, w.sys.tasks[t].pc.resp)
  }

  /** So has the next call, by the next task, with one line taken up; and another call can be made. */
  predicate NextFulfilled(b: Build, w: World, calls: nat, tasks: nat, lines: nat, r: GoRequest) {
    Fulfilled(b, w, calls, tasks, r) && |w.net.log| == lines + 1 && w.net.mu.None? && Available(w.net)
  }

  lemma ReturnedIsFulfilled(b: Build, run: seq<Event>, i: nat, t: nat, r: GoRequest)
    requires Returned(After(b, run), i, r) && Executes(After(b, run), i, t)
    ensures Fulfilled(b, After(b, run), i, t, r)
  {
    var own, j := ReturnedCallLinearized(b, run, i, r);
    ExecutedAtMostOnce(b, run, i, r, t, i, own);
  }

  /** In every reachable state with the client's mutex free and a server that reads, a new call can be given
      the answer of the next task to arrive, which is its own; and then the next call can be made. */
  lemma NewCallCanReturn(b: Build, before: seq<Event>, r: GoRequest, clock: u64) returns (run: seq<Event>, w': World)
    requires After(b, before).net.mu.None? && Available(After(b, before).net) && !NilWhereNeeded(r)
    ensures w' == After(b, before + run)
    ensures var w := After(b, before); NextFulfilled(b, w', |w.net.calls|, |w.sys.tasks|, |w.net.log|, r)
  {
    var x, h, payload, w := CodecOf(b), I.DaemonHandler(b.c), Print(Obj(GoEnvelope(r))), After(b, before);
    AskedLine(b, r, |w.net.calls|);
    Reachable(b, before);
    ShowsOneLine(b);
    var resp;
    run, resp := NewCallCanBeAnswered(x, h, w, payload, clock);
    RunConcat(x, h, START, before, run);
    w' := After(b, before + run);
    assert w' == Run(x, h, w, run);
    assert CallOf(w'.net.log[|w.net.log|]) == |w.net.calls|;
    assert Executes(w', |w.net.calls|, |w.sys.tasks|);
    ReturnedIsFulfilled(b, before + run, |w.net.calls|, |w.sys.tasks|, r);
  }

  /** What an event does for call `i`: it moves a task of the daemon, or brings the call forward. */
  predicate Helps(x: Codec, w: World, i: nat, ev: Event) {
    match ev
    case Work(t, _) => I.Enabled(w.sys, t)
    case OtherClient(_) => false
    case _ =>
      match NetEvent(x, w, ev)
      case Some(e) => Forward(w.net, i, if e.ServerAnswer? then |e.reply| else 0, e)
      case None => false
  }

  /** While the server handles the call's line, its task or another can move, or the answer is there. */
  lemma HandlingHelped(x: Codec, w: World, i: nat, k: nat, clock: u64) returns (ev: Event)
    requires Inv(w.net) && Linked(x, w) && P.LocksConsistent(w.sys) && forall r :: Lines.OneLine(x.show(r))
    requires w.net.mu == Some(i) && w.net.conn == Some(k) && w.net.conns[k].server.Handling?
    ensures Helps(x, w, i, ev)
  {
    var d := w.net.conns[k].server.entry;
    assert ConnOk(w.net, k) && EntryLinked(x, w, d);
    if ResponseTo(w, d).Some? {
      ev := Reply(k);
    } else {
      var t := P.SomeTaskCanMove(w.sys, w.origin[d].value);
      ev := Work(t, clock);
    }
  }

  lemma UnderwayHelped(x: Codec, w: World, i: nat, clock: u64) returns (ev: Event)
    requires Underway(w.net, i) && Linked(x, w) && P.LocksConsistent(w.sys) && forall r :: Lines.OneLine(x.show(r))
    ensures Helps(x, w, i, ev)
  {
    var e := Waits(w.net, i, 0);
    if e.ServerLine? {
      ev := TakeUp(e.k);
    } else if e.ServerAnswer? {
      ev := HandlingHelped(x, w, i, e.k, clock);
    } else {
      ev := Network(e);
    }
  }

  /** No deadlock across client, server and daemon: while a call is under way on a connection that has not
      failed, something can happen that helps it. */
  lemma CallNeverStuck(b: Build, before: seq<Event>, i: nat, clock: u64) returns (ev: Event)
    requires Underway(After(b, before).net, i)
    ensures Helps(CodecOf(b), After(b, before), i, ev)
  {
    Reachable(b, before);
    Facts(b, before);
    ShowsOneLine(b);
    ev := UnderwayHelped(CodecOf(b), After(b, before), i, clock);
  }

  // ---- and from every state whatever ----

  lemma RecoveryOnNetwork(b: Build, before: seq<Event>) returns (run: seq<Event>)
    ensures var (w, w') := (After(b, before), After(b, before + run));
      && w'.net.mu.None? && w'.net.conn.None? && LeftAlone(w.net, w'.net)
      && w'.sys == w.sys && w'.origin == w.origin
  {
    var x, h, w := CodecOf(b), I.DaemonHandler(b.c), After(b, before);
    Reachable(b, before);
    var reset := CanRecover(w.net);
    NetworkAlone(x, h, w, reset);
    run := OnNetwork(reset);
    RunConcat(x, h, START, before, run);
  }

  lemma Regroup<T>(a: seq<T>, b: seq<T>, c: seq<T>)
    ensures a + b + c == a + (b + c)
  {
  }

  /** Whatever has happened -- a call cut off in the middle of its line, a server that hung up, other clients
      at work, rotations in flight -- the next call can be given the answer of its own task. */
  lemma AnyCallCanReturn(b: Build, before: seq<Event>, r: GoRequest, clock: u64) returns (run: seq<Event>, w': World)
    requires !NilWhereNeeded(r)
    ensures w' == After(b, before + run)
    ensures var w := After(b, before); NextFulfilled(b, w', |w.net.calls|, |w.sys.tasks|, |w.net.log|, r)
  {
    var reset := RecoveryOnNetwork(b, before);
    run, w' := NewCallCanReturn(b, before + reset, r, clock);
    Regroup(before, reset, run);
    run := reset + run;
  }

  // ---- other clients ----

  /** The request of another client is a task of its own, which can be answered, and which this client's
      connection and calls have no part in. */
  lemma OtherClientAnswered(b: Build, before: seq<Event>, req: Request, clock: u64) returns (run: seq<Event>, w': World)
    ensures w' == After(b, before + run)
    ensures var w := After(b, before);
      && w'.net == w.net && w'.origin == w.origin && |w.sys.tasks| < |w'.sys.tasks|
      && w'.sys.tasks[|w.sys.tasks|].req == req && w'.sys.tasks[|w.sys.tasks|].pc.Done?
  {
    var x, h, w := CodecOf(b), I.DaemonHandler(b.c), After(b, before);
    Reachable(b, before);
    var arrived := Apply(x, h, w, OtherClient(req));
    var work := P.RequestCanFinish(h, arrived.sys, |w.sys.tasks|, clock);
    BusyRuns(h, arrived.sys, work);
    WorkAlone(x, h, arrived, work);
    I.ExecExtends(h, arrived.sys, work);
    run := [OtherClient(req)] + AtWork(work);
    assert run[1..] == AtWork(work);
    w' := Run(x, h, w, run);
    RunConcat(x, h, START, before, run);
  }
}
