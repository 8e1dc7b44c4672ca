/** What the lock-step protocol gives besides safety: a call on a connection that does not fail is answered. */
module Completion {
  import opened Bytes
  import opened LockStep
  import opened Matching
  import Lines

  // ---- a call with a way ahead ----

  /** A call can begin: there is no connection, or the one that was kept has a server that reads. */
  predicate Available(s: Net) {
    s.conn.Some? ==> s.conn.value < |s.conns| && s.conns[s.conn.value].server.Reading?
  }

  /** The answer to call `i` is on connection `k`, whole, and its end has not been read yet. */
  predicate OnItsWay(s: Net, i: nat, k: nat, e: nat)
    requires i < |s.calls| && k < |s.conns|
  {
    Answered(s, i, k, e) && Answer(s, k) == ReplyLine(s, e) && Break(s.reader) == |s.reader|
  }

  /** Call `i` holds the mutex, and nothing has failed on its connection. */
  ghost predicate Underway(s: Net, i: nat) {
    && Inv(s) && s.mu == Some(i)
    && match s.calls[i].status
       case Locked => Available(s)
       case Sending(_) => s.conns[s.conn.value].server.Reading?
       case Receiving =>
         && !s.conns[s.conn.value].server.Closed?
         && (Unanswered(s, i, s.conn.value) || exists e: nat :: OnItsWay(s, i, s.conn.value, e))
       case _ => false
  }

  /** Something happens that brings call `i` forward: the connection is made, bytes arrive, its line is taken
      up or answered in at most `most` characters. */
  predicate Forward(s: Net, i: nat, most: nat, e: Event) {
    && s.mu == Some(i) && i < |s.calls|
    && match e
       case Dial(ok) => s.calls[i].status.Locked? && (s.conn.Some? || ok)
       case Send(n) => s.calls[i].status.Sending? && 0 < n <= |s.calls[i].status.left|
       case Receive(n) => s.calls[i].status.Receiving? && AtConn(s) && 0 < n <= |InUse(s).toClient|
       case ServerRead(k, n) =>
         s.conn == Some(k) && AtConn(s) && InUse(s).server.Reading? && 0 < n <= |InUse(s).toServer|
       case ServerLine(k) =>
         s.conn == Some(k) && AtConn(s) && InUse(s).server.Reading? && Break(InUse(s).inbuf) < |InUse(s).inbuf|
       case ServerAnswer(k, reply) =>
         s.conn == Some(k) && AtConn(s) && InUse(s).server.Handling? && Lines.OneLine(reply) && |reply| <= most
       case ServerWrite(k, n) =>
         s.conn == Some(k) && AtConn(s) && InUse(s).server.Writing? && 0 < n <= |InUse(s).server.rest|
       case _ => false
  }

  predicate AtConn(s: Net) {
    s.conn.Some? && s.conn.value < |s.conns|
  }

  function InUse(s: Net): Conn
    requires AtConn(s)
  {
    s.conns[s.conn.value]
  }

  /** Other callers arrive; servers of other connections move, close or are closed upon. */
  predicate Aside(s: Net, e: Event) {
    e.Invoke? || (AtServer(e).Some? && AtServer(e) != s.conn)
  }

  /** How much is still to happen before call `i` has its answer. */
  function Work(s: Net, i: nat, most: nat): nat {
    if s.mu != Some(i) || i >= |s.calls| then 0
    else
      match s.calls[i].status
      case Locked => 2 * |RequestLine(s, i)| + 2 * most + 5
      case Sending(left) => if AtConn(s) then 2 * |left| + |InUse(s).toServer| + 2 * most + 4 else 0
      case Receiving =>
        if !AtConn(s) then 0
        else
          (match InUse(s).server
           case Reading => if InUse(s).toClient == [] then |InUse(s).toServer| + 2 * most + 4 else |InUse(s).toClient|
           case Handling(_) => 2 * most + 3
           case Writing(rest) => 2 * |rest| + |InUse(s).toClient|
           case Closed => 0)
      case _ => 0
  }

  predicate HasReturned(s: Net, i: nat) {
    i < |s.calls| && s.calls[i].status.Returned?
  }

  // ---- some event brings the call forward ----

  lemma Waits(s: Net, i: nat, most: nat) returns (e: Event)
    requires Underway(s, i)
    ensures Forward(s, i, most, e)
  {
    match s.calls[i].status
    case Locked => e := Dial(true);
    case Sending(left) => e := Send(|left|);
    case Receiving =>
      var k := s.conn.value;
      if Unanswered(s, i, k) {
        e := Unheard(s, i, k, most);
      } else {
        var d: nat :| OnItsWay(s, i, k, d);
        e := Unread(s, i, k, d, most);
      }
  }

  lemma Unheard(s: Net, i: nat, k: nat, most: nat) returns (e: Event)
    requires Underway(s, i) && s.calls[i].status.Receiving? && s.conn == Some(k) && Unanswered(s, i, k)
    ensures Forward(s, i, most, e)
  {
    var c := s.conns[k];
    if c.server.Handling? {
      e := ServerAnswer(k, "");
    } else if c.toServer != [] {
      e := ServerRead(k, |c.toServer|);
    } else {
      assert CallOk(s, i);
      LineEnd(s.calls[i].payload, i);
      assert c.inbuf == RequestLine(s, i);
      e := ServerLine(k);
    }
  }

  lemma Unread(s: Net, i: nat, k: nat, d: nat, most: nat) returns (e: Event)
    requires Underway(s, i) && s.calls[i].status.Receiving? && s.conn == Some(k) && OnItsWay(s, i, k, d)
    ensures Forward(s, i, most, e)
  {
    var c := s.conns[k];
    if c.server.Writing? {
      e := ServerWrite(k, |c.server.rest|);
    } else {
      RemainsToRead(s, i, k, d);
      e := Receive(|c.toClient|);
    }
  }

  /** When the server has written all, the end of the answer is still in the socket. */
  lemma RemainsToRead(s: Net, i: nat, k: nat, d: nat)
    requires Inv(s) && i < |s.calls| && k < |s.conns| && OnItsWay(s, i, k, d) && !s.conns[k].server.Writing?
    ensures s.conns[k].toClient != []
  {
    assert EntryOk(s, d);
    LineEnd(s.log[d].reply.value, d);
  }

  // ---- and every such event does ----

  /** The line of call `i` has one entry at most. */
  lemma OneEntry(s: Net, i: nat, d: nat, e: nat)
    requires Inv(s) && i < |s.calls| && Handled(s, i, d) && Handled(s, i, e)
    ensures d == e
  {
    assert s.log[d].line[0].src == i && s.log[e].line[0].src == i;
  }

  lemma DialForward(s: Net, i: nat, most: nat, e: Event)
    requires Underway(s, i) && Forward(s, i, most, e) && e.Dial?
    ensures Underway(Apply(s, e), i) && Work(Apply(s, e), i, most) < Work(s, i, most)
  {
    ApplyKeeps(s, e);
  }

  lemma SendForward(s: Net, i: nat, most: nat, e: Event)
    requires Underway(s, i) && Forward(s, i, most, e) && e.Send?
    ensures Underway(Apply(s, e), i) && Work(Apply(s, e), i, most) < Work(s, i, most)
  {
    ApplyKeeps(s, e);
    var s' := Apply(s, e);
    assert s'.conns[s.conn.value].server.Reading?;
    assert |s'.conns[s.conn.value].toServer| == |s.conns[s.conn.value].toServer| + e.n;
    if s'.calls[i].status.Receiving? {
      assert s'.conns[s.conn.value].toServer != [];
      assert Unanswered(s', i, s.conn.value);
    }
  }

  lemma ReadForward(s: Net, i: nat, most: nat, e: Event)
    requires Underway(s, i) && Forward(s, i, most, e) && e.ServerRead?
    ensures Underway(Apply(s, e), i) && Work(Apply(s, e), i, most) < Work(s, i, most)
  {
    ApplyKeeps(s, e);
    var s' := Apply(s, e);
    assert s'.conns[e.k].inbuf != [] && s'.conns[e.k].server.Reading?;
    if s.calls[i].status.Receiving? {
      assert Unanswered(s', i, e.k);
    }
  }

  lemma LineForward(s: Net, i: nat, most: nat, e: Event)
    requires Underway(s, i) && Forward(s, i, most, e) && e.ServerLine?
    ensures Underway(Apply(s, e), i) && Work(Apply(s, e), i, most) < Work(s, i, most)
  {
    ApplyKeeps(s, e);
    var s' := Apply(s, e);
    if s.calls[i].status.Sending? {
      NoEarlyNewline(s, i, e.k, s.calls[i].status.left);
    }
    assert s'.conns[e.k].server.Handling?;
    if s.calls[i].status.Receiving? {
      assert Unanswered(s', i, e.k);
    }
  }

  lemma AnswerForward(s: Net, i: nat, most: nat, e: Event)
    requires Underway(s, i) && Forward(s, i, most, e) && e.ServerAnswer?
    ensures Underway(Apply(s, e), i) && Work(Apply(s, e), i, most) < Work(s, i, most)
  {
    ApplyKeeps(s, e);
    var s', d := Apply(s, e), s.conns[e.k].server.entry;
    assert Unanswered(s, i, e.k) && ConnOk(s, e.k);
    assert s' == AfterAnswer(s, e.k, e.reply);
    assert Answer(s', e.k) == ReplyLine(s', d);
    assert Answered(s', i, e.k, d);
    assert OnItsWay(s', i, e.k, d);
  }

  lemma WriteForward(s: Net, i: nat, most: nat, e: Event)
    requires Underway(s, i) && Forward(s, i, most, e) && e.ServerWrite?
    ensures Underway(Apply(s, e), i) && Work(Apply(s, e), i, most) < Work(s, i, most)
  {
    ApplyKeeps(s, e);
    var s', c := Apply(s, e), s.conns[e.k];
    var d: nat :| OnItsWay(s, i, e.k, d);
    assert c.server.rest == c.server.rest[..e.n] + c.server.rest[e.n..];
    assert Answer(s', e.k) == Answer(s, e.k);
    assert OnItsWay(s', i, e.k, d);
    assert |s'.conns[e.k].toClient| == |c.toClient| + e.n;
  }

  lemma ReceiveForward(s: Net, i: nat, most: nat, e: Event)
    requires Underway(s, i) && Forward(s, i, most, e) && e.Receive?
    ensures var s' := Apply(s, e);
      (Underway(s', i) && Work(s', i, most) < Work(s, i, most)) || (HasReturned(s', i) && s'.mu.None?)
  {
    var k, s' := s.conn.value, Apply(s, e);
    ApplyKeeps(s, e);
    var d: nat :| OnItsWay(s, i, k, d);
    var got := Got(s, k, e.n);
    if Break(got) == |got| {
      GotPassive(s, k, e.n, got);
      assert Answer(s', k) == Got(s, k, e.n) + Yet(s, k, e.n);
      assert OnItsWay(s', i, k, d);
      assert |s'.conns[k].toClient| == |s.conns[k].toClient| - e.n;
      if !s'.conns[k].server.Writing? {
        RemainsToRead(s', i, k, d);
      }
    }
  }

  lemma ForwardWorks(s: Net, i: nat, most: nat, e: Event)
    requires Underway(s, i) && Forward(s, i, most, e)
    ensures var s' := Apply(s, e);
      && (Underway(s', i) || (HasReturned(s', i) && s'.mu.None?))
      && Work(s', i, most) < Work(s, i, most)
  {
    match e
    case Dial(_) => DialForward(s, i, most, e);
    case Send(_) => SendForward(s, i, most, e);
    case Receive(_) => ReceiveForward(s, i, most, e);
    case ServerRead(_, _) => ReadForward(s, i, most, e);
    case ServerLine(_) => LineForward(s, i, most, e);
    case ServerAnswer(_, _) => AnswerForward(s, i, most, e);
    case ServerWrite(_, _) => WriteForward(s, i, most, e);
  }

  // ---- what happens elsewhere ----

  /** Neither other callers nor other connections get in the way. */
  lemma AsideFrame(s: Net, i: nat, e: Event)
    requires Inv(s) && s.mu == Some(i) && Aside(s, e)
    ensures var s' := Apply(s, e);
      && Inv(s') && s'.mu == s.mu && s'.conn == s.conn && s'.reader == s.reader
      && |s'.calls| >= |s.calls| && s'.calls[i] == s.calls[i]
      && (AtConn(s) ==> AtConn(s') && InUse(s') == InUse(s))
      && |s'.log| >= |s.log|
  {
    ApplyKeeps(s, e);
  }

  /** An answered entry stays as it is. */
  lemma AnswerStays(s: Net, e: Event, d: nat)
    requires Inv(s) && d < |s.log| && s.log[d].reply.Some?
    ensures d < |Apply(s, e).log| && Apply(s, e).log[d] == s.log[d]
  {
    if AtServer(e).Some? && AtServer(e).value < |s.conns| {
      assert ConnOk(s, AtServer(e).value);
    }
  }

  lemma AsideHarmless(s: Net, i: nat, most: nat, e: Event)
    requires Underway(s, i) && Aside(s, e)
    ensures Underway(Apply(s, e), i) && Work(Apply(s, e), i, most) == Work(s, i, most)
  {
    var s' := Apply(s, e);
    AsideFrame(s, i, e);
    if s.calls[i].status.Receiving? {
      var k := s.conn.value;
      if d: nat :| OnItsWay(s, i, k, d) {
        AnswerStays(s, e, d);
        assert OnItsWay(s', i, k, d);
      } else {
        assert Unanswered(s, i, k);
        assert Unanswered(s', i, k);
      }
    }
  }

  lemma ReturnedStays(s: Net, i: nat, e: Event)
    requires HasReturned(s, i) && s.mu.None? && Aside(s, e)
    ensures HasReturned(Apply(s, e), i) && Apply(s, e).mu.None?
  {
  }

  // ---- every schedule ----

  /** A run in which nothing fails for call `i`: each event brings it forward or is none of its business. */
  predicate Smooth(s: Net, i: nat, most: nat, run: seq<Event>)
    decreases |run|
  {
    run == [] || ((Forward(s, i, most, run[0]) || Aside(s, run[0])) && Smooth(Apply(s, run[0]), i, most, run[1..]))
  }

  function Forwards(s: Net, i: nat, most: nat, run: seq<Event>): nat
    decreases |run|
  {
    if run == [] then 0
    else (if Forward(s, i, most, run[0]) then 1 else 0) + Forwards(Apply(s, run[0]), i, most, run[1..])
  }

  /** However bytes are cut up, and whatever other callers and connections do: while nothing fails on its
      connection, a call that holds the mutex is brought forward only so often, and when nothing can bring
      it forward any more it has returned. */
  lemma {:induction false} EveryCallReturns(s: Net, i: nat, most: nat, run: seq<Event>)
    requires Underway(s, i) || (HasReturned(s, i) && s.mu.None?)
    requires Smooth(s, i, most, run)
    ensures Forwards(s, i, most, run) <= Work(s, i, most)
    ensures var end := Run(s, run);
      HasReturned(end, i) <==> forall e :: !Forward(end, i, most, e)
    decreases |run|
  {
    if run == [] {
      if Underway(s, i) {
        var e := Waits(s, i, most);
      }
    } else {
      if Underway(s, i) && Forward(s, i, most, run[0]) {
        ForwardWorks(s, i, most, run[0]);
      } else if Underway(s, i) {
        AsideHarmless(s, i, most, run[0]);
        AsideIsNotForward(s, i, most, run[0]);
      } else {
        ReturnedStays(s, i, run[0]);
      }
      EveryCallReturns(Apply(s, run[0]), i, most, run[1..]);
    }
  }

  lemma AsideIsNotForward(s: Net, i: nat, most: nat, e: Event)
    requires Aside(s, e)
    ensures !Forward(s, i, most, e)
  {
  }

  /** From every reachable state with the mutex free and a server that reads, a waiting call that takes the
      mutex returns, along every schedule without a failure, after a number of steps known beforehand. */
  lemma LockedCallReturns(before: seq<Event>, i: nat, most: nat, run: seq<Event>)
    requires var s := Run(START, before);
      s.mu.None? && Available(s) && i < |s.calls| && s.calls[i].status.Waiting?
    requires Smooth(Apply(Run(START, before), Lock(i)), i, most, run)
    ensures var s := Run(START, before);
      && Forwards(Apply(s, Lock(i)), i, most, run) <= 2 * |s.calls[i].payload| + 2 * most + 7
      && var end := Run(Apply(s, Lock(i)), run);
         HasReturned(end, i) <==> forall e :: !Forward(end, i, most, e)
  {
    var s := Run(START, before);
    StartInv();
    RunKeeps(START, before);
    ApplyKeeps(s, Lock(i));
    EveryCallReturns(Apply(s, Lock(i)), i, most, run);
  }

  // ---- one run, exactly ----

  const FRESH := Conn(true, [], [], Reading, [])

  /** The connection a call will use, and all connections once it does. */
  function Chosen(s: Net): nat { if s.conn.Some? then s.conn.value else |s.conns| }

  function Dialled(s: Net): (conns: seq<Conn>)
    requires s.conn.Some? ==> s.conn.value < |s.conns|
    ensures Chosen(s) < |conns|
  {
    if s.conn.Some? then s.conns else s.conns + [FRESH]
  }

  /** Call `i`, made in state `s`, holds the mutex and nothing else has happened. */
  function During(s: Net, i: nat, st: Status, c: Conn, log: seq<Exec>): Net
    requires i < |s.calls| && (s.conn.Some? ==> s.conn.value < |s.conns|)
  {
    Net(s.calls[i := s.calls[i].(status := st)], Some(i), Some(Chosen(s)), [], Dialled(s)[Chosen(s) := c], log)
  }

  /** Call `i`, made in state `s`, has returned with this reply. */
  function Served(s: Net, i: nat, reply: string): Net
    requires i < |s.calls| && (s.conn.Some? ==> s.conn.value < |s.conns|)
  {
    Net(s.calls[i := s.calls[i].(status := Returned(Tagged(reply + "\n", |s.log|)))], None, Some(Chosen(s)), [],
        Dialled(s)[Chosen(s) := FRESH], s.log + [Exec(RequestLine(s, i), Some(reply))])
  }

  lemma OneMore(s: Net, run: seq<Event>, e: Event) returns (longer: seq<Event>, s': Net)
    ensures run <= longer && longer == run + [e] && s' == Apply(Run(s, run), e) == Run(s, longer)
  {
    longer := run + [e];
    s' := Apply(Run(s, run), e);
    RunOneMore(s, run, e);
  }

  ghost predicate MayBegin(s: Net, i: nat) {
    Inv(s) && s.mu.None? && Available(s) && i < |s.calls| && s.calls[i].status.Waiting?
  }

  predicate CanUse(s: Net, i: nat) {
    i < |s.calls| && (s.conn.Some? ==> s.conn.value < |s.conns|)
  }

  lemma Dials(s: Net, i: nat)
    requires MayBegin(s, i)
    ensures Apply(Apply(s, Lock(i)), Dial(true)) == During(s, i, Sending(RequestLine(s, i)), FRESH, s.log)
  {
    if s.conn.Some? {
      assert s.conns[Chosen(s)] == FRESH && s.conns[Chosen(s) := FRESH] == s.conns;
    }
  }

  lemma All<T>(t: seq<T>)
    ensures t[..|t|] == t && t[|t|..] == [] && [] + t == t
  {
  }

  lemma Sends(s: Net, i: nat)
    requires CanUse(s, i)
    ensures var line := RequestLine(s, i);
      Apply(During(s, i, Sending(line), FRESH, s.log), Send(|line|))
      == During(s, i, Receiving, FRESH.(toServer := line), s.log)
  {
    All(RequestLine(s, i));
  }

  lemma Reads(s: Net, i: nat)
    requires CanUse(s, i)
    ensures var line := RequestLine(s, i);
      Apply(During(s, i, Receiving, FRESH.(toServer := line), s.log), ServerRead(Chosen(s), |line|))
      == During(s, i, Receiving, FRESH.(inbuf := line), s.log)
  {
    All(RequestLine(s, i));
  }

  lemma TakenUp(s: Net, i: nat)
    requires CanUse(s, i) && Lines.OneLine(s.calls[i].payload)
    ensures var line := RequestLine(s, i);
      Apply(During(s, i, Receiving, FRESH.(inbuf := line), s.log), ServerLine(Chosen(s)))
      == During(s, i, Receiving, FRESH.(server := Handling(|s.log|)), s.log + [Exec(line, None)])
  {
    var line := RequestLine(s, i);
    LineEnd(s.calls[i].payload, i);
    assert Break(line) + 1 == |line|;
    All(line);
  }

  lemma Replied(s: Net, i: nat, reply: string)
    requires CanUse(s, i) && Lines.OneLine(reply)
    ensures var line, text := RequestLine(s, i), Tagged(reply + "\n", |s.log|);
      Apply(During(s, i, Receiving, FRESH.(server := Handling(|s.log|)), s.log + [Exec(line, None)]),
            ServerAnswer(Chosen(s), reply))
      == During(s, i, Receiving, FRESH.(server := Writing(text)), s.log + [Exec(line, Some(reply))])
  {
  }

  lemma Writes(s: Net, i: nat, text: seq<Octet>, log: seq<Exec>)
    requires CanUse(s, i)
    ensures Apply(During(s, i, Receiving, FRESH.(server := Writing(text)), log), ServerWrite(Chosen(s), |text|))
         == During(s, i, Receiving, FRESH.(toClient := text), log)
  {
    All(text);
  }

  lemma ReceivesAll(s: Net, i: nat, text: seq<Octet>, log: seq<Exec>)
    requires CanUse(s, i) && text != [] && Break(text) == |text| - 1
    ensures Apply(During(s, i, Receiving, FRESH.(toClient := text), log), Receive(|text|))
         == During(s, i, Returned(text), FRESH, log).(mu := None)
  {
    All(text);
  }

  lemma Returns(s: Net, i: nat, reply: string)
    requires CanUse(s, i) && Lines.OneLine(reply)
    ensures var line, text := RequestLine(s, i), Tagged(reply + "\n", |s.log|);
      Apply(During(s, i, Receiving, FRESH.(toClient := text), s.log + [Exec(line, Some(reply))]), Receive(|text|))
      == Served(s, i, reply)
  {
    var text := Tagged(reply + "\n", |s.log|);
    LineEnd(reply, |s.log|);
    ReceivesAll(s, i, text, s.log + [Exec(RequestLine(s, i), Some(reply))]);
  }

  /** The call locks the mutex, gets its connection, sends its line, and the server reads it. */
  lemma Requested(s: Net, i: nat) returns (run: seq<Event>)
    requires MayBegin(s, i)
    ensures var k, line := Chosen(s), RequestLine(s, i);
      && run == [Lock(i), Dial(true), Send(|line|), ServerRead(k, |line|)]
      && Run(s, run) == During(s, i, Receiving, FRESH.(inbuf := line), s.log)
  {
    var s';
    run, s' := OneMore(s, [], Lock(i));
    run, s' := OneMore(s, run, Dial(true));
    Dials(s, i);
    run, s' := OneMore(s, run, Send(|RequestLine(s, i)|));
    Sends(s, i);
    run, s' := OneMore(s, run, ServerRead(Chosen(s), |RequestLine(s, i)|));
    Reads(s, i);
  }

  /** The server writes its reply, and the call reads it and returns. */
  lemma ReplyArrives(s: Net, i: nat, reply: string) returns (run: seq<Event>)
    requires MayBegin(s, i) && Lines.OneLine(reply)
    ensures var line, text := RequestLine(s, i), Tagged(reply + "\n", |s.log|);
      && run == [ServerWrite(Chosen(s), |text|), Receive(|text|)]
      && Run(During(s, i, Receiving, FRESH.(server := Writing(text)), s.log + [Exec(line, Some(reply))]), run)
         == Served(s, i, reply)
  {
    var line, text := RequestLine(s, i), Tagged(reply + "\n", |s.log|);
    var log := s.log + [Exec(line, Some(reply))];
    var start, s' := During(s, i, Receiving, FRESH.(server := Writing(text)), log), s;
    run, s' := OneMore(start, [], ServerWrite(Chosen(s), |text|));
    Writes(s, i, text, log);
    run, s' := OneMore(start, run, Receive(|text|));
    Returns(s, i, reply);
  }

  /** From every reachable state with the mutex free, and either no connection or a kept one whose server
      reads, a waiting call can get every one-line reply to exactly its own request line: it returns that
      reply, and one entry is all that is added to the log. Then another call can begin. */
  lemma CallCanComplete(s: Net, i: nat, reply: string) returns (run: seq<Event>)
    requires MayBegin(s, i) && Lines.OneLine(reply)
    ensures Run(s, run) == Served(s, i, reply)
    ensures Available(Served(s, i, reply))
    ensures forall e :: e in run ==> !e.SendFails? && !e.ReceiveFails? && !e.ServerDrops? && !e.CloseClient?
  {
    var s', k, more := s, Chosen(s), [];
    run := Requested(s, i);
    run, s' := OneMore(s, run, ServerLine(k));
    assert CallOk(s, i);
    TakenUp(s, i);
    run, s' := OneMore(s, run, ServerAnswer(k, reply));
    Replied(s, i, reply);
    more := ReplyArrives(s, i, reply);
    RunConcat(s, run, more);
    run := run + more;
  }

  lemma RunInv(before: seq<Event>)
    ensures Inv(Run(START, before))
  {
    StartInv();
    RunKeeps(START, before);
  }

  /** The same for a call that has yet to be made. */
  lemma NewCallCanComplete(s: Net, payload: string, reply: string) returns (run: seq<Event>)
    requires Inv(s) && s.mu.None? && Available(s) && Lines.OneLine(payload) && Lines.OneLine(reply)
    ensures var end := Run(s, run);
      && end.calls == s.calls + [Call(payload, Returned(Tagged(reply + "\n", |s.log|)))]
      && end.log == s.log + [Exec(Tagged(payload + "\n", |s.calls|), Some(reply))]
      && end.mu.None? && end.conn.Some? && Available(end)
  {
    var called := Apply(s, Invoke(payload));
    ApplyKeeps(s, Invoke(payload));
    var more := CallCanComplete(called, |s.calls|, reply);
    run := [Invoke(payload)] + more;
    assert run[1..] == more;
  }

  /** The log is the same, and so are all calls but the one that held the mutex. */
  predicate LeftAlone(s: Net, s': Net) {
    && s'.log == s.log && |s'.calls| == |s.calls|
    && forall i :: 0 <= i < |s.calls| && s.mu != Some(i) ==> s'.calls[i] == s.calls[i]
  }

  lemma GivesUp(s: Net, e: Event)
    requires Inv(s) && s.mu.Some?
    requires e == match s.calls[s.mu.value].status
      case Locked => Dial(false)
      case Sending(_) => SendFails
      case _ => ReceiveFails
    ensures var s' := Apply(s, e);
      && Inv(s') && LeftAlone(s, s')
      && (s'.mu.None? || (s.calls[s.mu.value].status.Locked? && s'.mu == s.mu && s'.calls[s.mu.value].status.Sending?))
  {
    ApplyKeeps(s, e);
  }

  lemma ClosesClient(s: Net)
    requires Inv(s) && s.mu.None?
    ensures Apply(s, CloseClient).mu.None? && Apply(s, CloseClient).conn.None? && LeftAlone(s, Apply(s, CloseClient))
  {
  }

  /** What the client itself can always do: give up the call in progress and drop the connection. */
  lemma {:induction false} CanRecover(s: Net) returns (run: seq<Event>)
    requires Inv(s)
    ensures Run(s, run).mu.None? && Run(s, run).conn.None? && LeftAlone(s, Run(s, run))
    ensures forall k :: 0 <= k < |run| ==> AtServer(run[k]).None?
    decreases if s.mu.None? then 0 else if s.calls[s.mu.value].status.Locked? then 2 else 1
  {
    if s.mu.None? {
      ClosesClient(s);
      run := [CloseClient];
      assert Run(s, run) == Apply(s, CloseClient);
    } else {
      var e := match s.calls[s.mu.value].status
        case Locked => Dial(false)
        case Sending(_) => SendFails
        case _ => ReceiveFails;
      GivesUp(s, e);
      var rest := CanRecover(Apply(s, e));
      run := [e] + rest;
      assert Run(s, run) == Run(Apply(s, e), rest);
    }
  }

  /** From every reachable state with the mutex free, and either no connection or a kept one whose server
      reads, a new call can get every reply to exactly its own line. */
  lemma ReadyCallCanComplete(before: seq<Event>, payload: string, reply: string) returns (run: seq<Event>)
    requires Run(START, before).mu.None? && Available(Run(START, before))
    requires Lines.OneLine(payload) && Lines.OneLine(reply)
    ensures var (s, end) := (Run(START, before), Run(START, before + run));
      && end.calls == s.calls + [Call(payload, Returned(Tagged(reply + "\n", |s.log|)))]
      && end.log == s.log + [Exec(Tagged(payload + "\n", |s.calls|), Some(reply))]
      && end.mu.None? && end.conn.Some? && Available(end)
  {
    RunInv(before);
    run := NewCallCanComplete(Run(START, before), payload, reply);
    RunConcat(START, before, run);
  }

  /** Whatever has happened, a later call can be answered: no run leaves the client stuck. */
  lemma AnyCallCanComplete(before: seq<Event>, payload: string, reply: string) returns (run: seq<Event>)
    requires Lines.OneLine(payload) && Lines.OneLine(reply)
    ensures var (s, end) := (Run(START, before), Run(START, before + run));
      && |end.calls| == |s.calls| + 1
      && end.calls[|s.calls|] == Call(payload, Returned(Tagged(reply + "\n", |s.log|)))
      && end.log == s.log + [Exec(Tagged(payload + "\n", |s.calls|), Some(reply))]
  {
    RunInv(before);
    var first := CanRecover(Run(START, before));
    RunConcat(START, before, first);
    run := ReadyCallCanComplete(before + first, payload, reply);
    assert before + first + run == before + (first + run);
    run := first + run;
  }

  // ---- connections the client has dropped ----

  /** The server of a dropped connection reads what is still in the socket. */
  lemma DroppedIsRead(s: Net, k: nat) returns (s': Net)
    requires Inv(s) && k < |s.conns| && !s.conns[k].open && s.conns[k].server.Reading?
    ensures s' == Apply(s, ServerRead(k, |s.conns[k].toServer|)) && Inv(s')
    ensures s' == WithConn(s, k, s.conns[k].(inbuf := Untaken(s.conns[k]), toServer := []))
  {
    s' := Apply(s, ServerRead(k, |s.conns[k].toServer|));
    ApplyKeeps(s, ServerRead(k, |s.conns[k].toServer|));
    All(s.conns[k].toServer);
  }

  /** What is left is one line, whether or not its newline arrived. */
  lemma RestIsOneLine(s: Net, k: nat)
    requires Inv(s) && k < |s.conns| && s.conns[k].server.Reading? && !s.conns[k].open
    requires s.conns[k].toServer == [] && s.conns[k].inbuf != []
    ensures Apply(s, ServerLine(k)) == TakeUp(s, k, s.conns[k].inbuf, [])
  {
    if Break(s.conns[k].inbuf) < |s.conns[k].inbuf| {
      var j := WholeLine(s, k);
    }
  }

  lemma EmptyIsClosed(s: Net, k: nat)
    requires k < |s.conns| && s.conns[k].server.Reading? && !s.conns[k].open
    requires s.conns[k].toServer == [] && s.conns[k].inbuf == []
    ensures Apply(s, ServerLine(k)) == WithConn(s, k, s.conns[k].(server := Closed))
  {
  }

  /** State `s` with another connection `k` and another log. */
  function Changed(s: Net, k: nat, c: Conn, log: seq<Exec>): Net
    requires k < |s.conns|
  {
    WithConn(s, k, c).(log := log)
  }

  lemma RestIsReplied(s: Net, k: nat, c: Conn, line: seq<Octet>, reply: string)
    requires k < |s.conns| && Lines.OneLine(reply)
    ensures Apply(Changed(s, k, c.(server := Handling(|s.log|)), s.log + [Exec(line, None)]), ServerAnswer(k, reply))
         == Changed(s, k, c.(server := Writing(Tagged(reply + "\n", |s.log|))), s.log + [Exec(line, Some(reply))])
  {
  }

  lemma RestIsWritten(s: Net, k: nat, c: Conn, text: seq<Octet>, log: seq<Exec>)
    requires k < |s.conns|
    ensures Apply(Changed(s, k, c.(server := Writing(text)), log), ServerWrite(k, |text|))
         == Changed(s, k, c.(server := Reading, toClient := c.toClient + text), log)
  {
    All(text);
  }

  /** The server answers the rest of a dropped connection, writes its answer to nobody, and closes. */
  lemma RestIsAnswered(s: Net, k: nat, reply: string) returns (run: seq<Event>)
    requires Inv(s) && k < |s.conns| && s.conns[k].server.Reading? && !s.conns[k].open && Lines.OneLine(reply)
    requires s.conns[k].toServer == [] && s.conns[k].inbuf != []
    ensures var (c, text) := (s.conns[k], Tagged(reply + "\n", |s.log|));
      Run(s, run) == Changed(s, k, c.(server := Closed, inbuf := [], toClient := c.toClient + text),
                               s.log + [Exec(c.inbuf, Some(reply))])
  {
    var s', c, text := s, s.conns[k].(inbuf := []), Tagged(reply + "\n", |s.log|);
    RestIsOneLine(s, k);
    run, s' := OneMore(s, [], ServerLine(k));
    RestIsReplied(s, k, c, s.conns[k].inbuf, reply);
    run, s' := OneMore(s, run, ServerAnswer(k, reply));
    RestIsWritten(s, k, c, text, s.log + [Exec(s.conns[k].inbuf, Some(reply))]);
    run, s' := OneMore(s, run, ServerWrite(k, |text|));
    EmptyIsClosed(s', k);
    run, s' := OneMore(s, run, ServerLine(k));
  }

  /** Connection `k` has come to its end; if there was a rest, it was answered as one line. */
  predicate Ended(s: Net, k: nat, rest: seq<Octet>, reply: string, end: Net) {
    && k < |end.conns| && end.conns[k].server.Closed? && end.calls == s.calls
    && end.log == s.log + (if rest == [] then [] else [Exec(rest, Some(reply))])
  }

  lemma DroppedEnds(s: Net, k: nat, reply: string) returns (run: seq<Event>)
    requires Inv(s) && k < |s.conns| && s.conns[k].server.Reading? && !s.conns[k].open && Lines.OneLine(reply)
    ensures Ended(s, k, Untaken(s.conns[k]), reply, Run(s, run))
  {
    var read := DroppedIsRead(s, k);
    var more := [ServerLine(k)];
    if Untaken(s.conns[k]) == [] {
      EmptyIsClosed(read, k);
      assert Run(read, more) == Apply(read, ServerLine(k));
    } else {
      more := RestIsAnswered(read, k, reply);
    }
    run := [ServerRead(k, |s.conns[k].toServer|)] + more;
    assert Run(s, run) == Run(read, more);
  }

  /** A connection the client has dropped comes to its end: if anything of a request was sent on it and not
      taken up, that is taken up, as one line, and answered; then the server closes. */
  lemma DroppedConnectionEnds(before: seq<Event>, k: nat, reply: string) returns (run: seq<Event>)
    requires k < |Run(START, before).conns| && Lines.OneLine(reply)
    requires var c := Run(START, before).conns[k]; c.server.Reading? && !c.open
    ensures var s := Run(START, before); Ended(s, k, Untaken(s.conns[k]), reply, Run(START, before + run))
  {
    RunInv(before);
    run := DroppedEnds(Run(START, before), k, reply);
    RunConcat(START, before, run);
  }

  /** At any moment the server may hang up, and the call that waits for it fails. */
  lemma CallCanFail(s: Net, i: nat)
    requires Inv(s) && s.mu == Some(i) && !s.calls[i].status.Locked?
    ensures var e := if s.calls[i].status.Sending? then SendFails else ReceiveFails;
      var end := Apply(Apply(s, ServerDrops(s.conn.value)), e);
      && end.mu.None? && end.conn.None? && i < |end.calls| && end.calls[i].status.Failed? && end.log == s.log
      && s.conn.value < |end.conns| && end.conns[s.conn.value].server.Closed? && !end.conns[s.conn.value].open
  {
  }
}
