/** Client, socket, server and concurrent daemon as one system: every line the server takes up becomes
    a task of the daemon, and what the server writes back is that task's answer. Other clients' requests
    reach the same daemon. */
module Deployment {
  import opened Bytes
  import opened Crypto
  import opened Daemon
  import opened Matching
  import I = Interleaving
  import L = LockStep

  /** How the server reads a line and prints a response. */
  datatype Codec = Codec(parse: string -> Option<Request>, show: Response -> string)

  /** `origin[e]` is the daemon's task for the `e`-th line taken up; a line that cannot be read has none. */
  datatype World = World(net: L.Net, sys: I.Sys, origin: seq<Option<nat>>)

  const START := World(L.START, I.IDLE, [])

  datatype Event =
    | Network(e: L.Event)
    | TakeUp(k: nat)
    | Reply(k: nat)
    | Work(task: nat, clock: u64)
    | OtherClient(req: Request)

  predicate IsNetwork(e: L.Event) {
    !e.ServerLine? && !e.ServerAnswer?
  }

  /** The response to the `e`-th line, once there is one. */
  function ResponseTo(w: World, e: nat): Option<Response>
    requires e < |w.origin|
  {
    match w.origin[e]
    case None => Some(Error(400, BadJson))
    case Some(t) => if t < |w.sys.tasks| && w.sys.tasks[t].pc.Done? then Some(w.sys.tasks[t].pc.resp) else None
  }

  /** What an event is for the network and for the daemon, if anything. */
  function NetEvent(x: Codec, w: World, ev: Event): Option<L.Event> {
    match ev
    case Network(e) => if IsNetwork(e) then Some(e) else None
    case TakeUp(k) => Some(L.ServerLine(k))
    case Reply(k) =>
      if k < |w.net.conns| && w.net.conns[k].server.Handling? && w.net.conns[k].server.entry < |w.origin|
      then match ResponseTo(w, w.net.conns[k].server.entry)
        case Some(resp) => Some(L.ServerAnswer(k, x.show(resp)))
        case None => None
      else None
    case _ => None
  }

  function NetAfter(x: Codec, w: World, ev: Event): L.Net {
    match NetEvent(x, w, ev) case Some(e) => L.Apply(w.net, e) case None => w.net
  }

  /** The request in the line that `ev` takes up, if it takes one up and it can be read. */
  function Taken(x: Codec, w: World, ev: Event): Option<Request> {
    var net := NetAfter(x, w, ev);
    if |net.log| > |w.net.log| then x.parse(L.Text(net.log[|w.net.log|].line)) else None
  }

  function SysEvent(x: Codec, w: World, ev: Event): Option<I.Event> {
    match ev
    case Work(t, clock) => Some(I.Run(t, clock))
    case OtherClient(req) => Some(I.Arrive(req))
    case _ => match Taken(x, w, ev) case Some(req) => Some(I.Arrive(req)) case None => None
  }

  function Apply(x: Codec, h: I.Handler, w: World, ev: Event): World {
    var net := NetAfter(x, w, ev);
    var sys := match SysEvent(x, w, ev) case Some(e) => I.Apply(h, w.sys, e) case None => w.sys;
    var origin :=
      if |net.log| > |w.net.log| then w.origin + [if Taken(x, w, ev).Some? then Some(|w.sys.tasks|) else None]
      else w.origin;
    World(net, sys, origin)
  }

  function Run(x: Codec, h: I.Handler, w: World, run: seq<Event>): World
    decreases |run|
  {
    if run == [] then w else Run(x, h, Apply(x, h, w, run[0]), run[1..])
  }

  lemma {:induction false} RunConcat(x: Codec, h: I.Handler, w: World, a: seq<Event>, b: seq<Event>)
    ensures Run(x, h, w, a + b) == Run(x, h, Run(x, h, w, a), b)
    decreases |a|
  {
    if a == [] {
      assert a + b == b;
    } else {
      assert (a + b)[0] == a[0] && (a + b)[1..] == a[1..] + b;
      RunConcat(x, h, Apply(x, h, w, a[0]), a[1..], b);
    }
  }

  // ---- its two halves ----

  function AsSeq<T>(o: Option<T>): seq<T> {
    match o case Some(v) => [v] case None => []
  }

  function NetTrace(x: Codec, h: I.Handler, w: World, run: seq<Event>): seq<L.Event>
    decreases |run|
  {
    if run == [] then [] else AsSeq(NetEvent(x, w, run[0])) + NetTrace(x, h, Apply(x, h, w, run[0]), run[1..])
  }

  function SysTrace(x: Codec, h: I.Handler, w: World, run: seq<Event>): seq<I.Event>
    decreases |run|
  {
    if run == [] then [] else AsSeq(SysEvent(x, w, run[0])) + SysTrace(x, h, Apply(x, h, w, run[0]), run[1..])
  }

  lemma {:induction false} NetRunConcat(s: L.Net, a: seq<L.Event>, b: seq<L.Event>)
    requires |a| <= 1
    ensures L.Run(s, a + b) == L.Run(L.Run(s, a), b)
  {
    if a == [] {
      assert a + b == b;
    } else {
      assert (a + b)[0] == a[0] && (a + b)[1..] == b && a[1..] == [];
    }
  }

  /** The network half of a run is a run of the lock-step protocol, and the daemon half one of the daemon. */
  lemma {:induction false} Halves(x: Codec, h: I.Handler, w: World, run: seq<Event>)
    ensures Run(x, h, w, run).net == L.Run(w.net, NetTrace(x, h, w, run))
    ensures Run(x, h, w, run).sys == I.Exec(h, w.sys, SysTrace(x, h, w, run))
    decreases |run|
  {
    if run != [] {
      var w' := Apply(x, h, w, run[0]);
      var a, b := AsSeq(NetEvent(x, w, run[0])), AsSeq(SysEvent(x, w, run[0]));
      Halves(x, h, w', run[1..]);
      NetRunConcat(w.net, a, NetTrace(x, h, w', run[1..]));
      I.ExecConcat(h, w.sys, b, SysTrace(x, h, w', run[1..]));
      assert L.Run(w.net, a) == w'.net;
      assert I.Exec(h, w.sys, b) == w'.sys;
    }
  }

  lemma {:induction false} SysTraceConcat(x: Codec, h: I.Handler, w: World, a: seq<Event>, b: seq<Event>)
    ensures SysTrace(x, h, w, a + b) == SysTrace(x, h, w, a) + SysTrace(x, h, Run(x, h, w, a), b)
    decreases |a|
  {
    if a == [] {
      assert a + b == b;
    } else {
      assert (a + b)[0] == a[0] && (a + b)[1..] == a[1..] + b;
      SysTraceConcat(x, h, Apply(x, h, w, a[0]), a[1..], b);
    }
  }

  // ---- how they are linked ----

  predicate EntryLinked(x: Codec, w: World, e: nat)
    requires e < |w.origin| == |w.net.log|
  {
    var entry := w.net.log[e];
    match w.origin[e]
    case None =>
      && x.parse(L.Text(entry.line)) == None
      && (entry.reply.Some? ==> entry.reply.value == x.show(Error(400, BadJson)))
    case Some(t) =>
      && t < |w.sys.tasks| && x.parse(L.Text(entry.line)) == Some(w.sys.tasks[t].req)
      && (entry.reply.Some? ==> w.sys.tasks[t].pc.Done? && entry.reply.value == x.show(w.sys.tasks[t].pc.resp))
  }

  predicate Linked(x: Codec, w: World) {
    && |w.origin| == |w.net.log|
    && (forall e :: 0 <= e < |w.origin| ==> EntryLinked(x, w, e))
    && (forall d, e :: 0 <= d < e < |w.origin| && w.origin[d].Some? && w.origin[e].Some? ==> w.origin[d] != w.origin[e])
  }

  /** How one network event changes the log: at most one more entry, and replies only where there were none. */
  lemma LogStep(s: L.Net, e: L.Event)
    ensures var s' := L.Apply(s, e);
      && |s.log| <= |s'.log| <= |s.log| + 1
      && (forall d :: 0 <= d < |s.log| ==> s'.log[d].line == s.log[d].line)
      && (|s'.log| > |s.log| ==> e.ServerLine? && s'.log[|s.log|].reply.None?)
      && (!e.ServerAnswer? ==> forall d :: 0 <= d < |s.log| ==> s'.log[d] == s.log[d])
      && (forall d :: 0 <= d < |s.log| && s'.log[d] != s.log[d] ==>
            && e.ServerAnswer? && e.k < |s.conns| && s.conns[e.k].server == L.Handling(d)
            && s'.log[d].reply == Some(e.reply))
  {
  }

  lemma SysExtends(x: Codec, h: I.Handler, w: World, ev: Event)
    ensures I.Extends(w.sys, Apply(x, h, w, ev).sys)
  {
    match SysEvent(x, w, ev)
    case Some(e) =>
      I.ExecExtends(h, w.sys, [e]);
      assert [e][1..] == [];
    case None =>
  }

  lemma OldEntryLinked(x: Codec, h: I.Handler, w: World, ev: Event, e: nat)
    requires Linked(x, w) && e < |w.origin|
    ensures var w' := Apply(x, h, w, ev); |w'.origin| == |w'.net.log| && e < |w'.origin| && EntryLinked(x, w', e)
  {
    var w' := Apply(x, h, w, ev);
    assert EntryLinked(x, w, e);
    SysExtends(x, h, w, ev);
    if NetEvent(x, w, ev).Some? {
      LogStep(w.net, NetEvent(x, w, ev).value);
    }
  }

  lemma ApplyLinked(x: Codec, h: I.Handler, w: World, ev: Event)
    requires Linked(x, w)
    ensures Linked(x, Apply(x, h, w, ev))
  {
    var w' := Apply(x, h, w, ev);
    if NetEvent(x, w, ev).Some? {
      LogStep(w.net, NetEvent(x, w, ev).value);
    }
    forall e | 0 <= e < |w'.origin| ensures EntryLinked(x, w', e) {
      if e < |w.origin| {
        OldEntryLinked(x, h, w, ev, e);
      }
    }
    forall e | 0 <= e < |w.origin| && w.origin[e].Some? ensures w.origin[e].value < |w.sys.tasks| {
      assert EntryLinked(x, w, e);
    }
  }

  lemma {:induction false} RunLinked(x: Codec, h: I.Handler, w: World, run: seq<Event>)
    requires Linked(x, w)
    ensures Linked(x, Run(x, h, w, run))
    decreases |run|
  {
    if run != [] {
      ApplyLinked(x, h, w, run[0]);
      RunLinked(x, h, Apply(x, h, w, run[0]), run[1..]);
    }
  }

  // ---- what a run adds ----

  /** Lines taken up later are tasks that arrived later. */
  predicate Later(w: World, w': World) {
    && |w.net.calls| <= |w'.net.calls| && |w.sys.tasks| <= |w'.sys.tasks|
    && |w.origin| <= |w'.origin| && |w.net.log| <= |w'.net.log|
    && (forall e :: 0 <= e < |w.origin| ==> w'.origin[e] == w.origin[e])
    && (forall e :: 0 <= e < |w.net.log| ==> w'.net.log[e].line == w.net.log[e].line)
    && (forall e :: |w.origin| <= e < |w'.origin| && w'.origin[e].Some? ==> w'.origin[e].value >= |w.sys.tasks|)
  }

  lemma CallsStep(s: L.Net, e: L.Event)
    ensures |s.calls| <= |L.Apply(s, e).calls|
  {
  }

  lemma {:induction false} RunLater(x: Codec, h: I.Handler, w: World, run: seq<Event>)
    requires |w.origin| == |w.net.log|
    ensures Later(w, Run(x, h, w, run))
    decreases |run|
  {
    if run != [] {
      var w' := Apply(x, h, w, run[0]);
      if NetEvent(x, w, run[0]).Some? {
        LogStep(w.net, NetEvent(x, w, run[0]).value);
        CallsStep(w.net, NetEvent(x, w, run[0]).value);
      }
      assert Later(w, w');
      RunLater(x, h, w', run[1..]);
    }
  }
}
