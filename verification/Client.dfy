/** The Go client as its methods run: one connection and one reader behind a mutex, dropped after any
    failed write or read. Each call is one run of the lock-step protocol. */
module Client {
  import opened Bytes
  import opened Completion
  import opened LockStep
  import Lines
  import opened Matching

  /** What may happen while a call is in progress: steps of servers, and other callers that arrive. */
  predicate Elsewhere(e: Event) {
    AtServer(e).Some? || e.Invoke?
  }

  lemma ElsewhereFrame(s: Net, e: Event)
    requires Elsewhere(e)
    ensures var s' := Apply(s, e);
      && s'.mu == s.mu && s'.conn == s.conn && s'.reader == s.reader
      && |s'.calls| >= |s.calls| && (forall i :: 0 <= i < |s.calls| ==> s'.calls[i] == s.calls[i])
      && |s'.conns| >= |s.conns|
  {
  }

  /** A call that holds the mutex and has a connection to write to and read from. */
  predicate Busy(s: Net, i: nat) {
    s.mu == Some(i) && i < |s.calls| && s.conn.Some? && s.conn.value < |s.conns|
  }

  predicate Finished(s: Net, i: nat) {
    i < |s.calls| ==> !s.calls[i].status.Sending? && !s.calls[i].status.Receiving?
  }

  /** What becomes of call `i` when these events come about, after which its deadline passes. */
  function Proceed(s: Net, i: nat, script: seq<Event>): Net
    decreases |script|
  {
    if Finished(s, i) then s
    else if script == [] then Apply(s, if s.calls[i].status.Sending? then SendFails else ReceiveFails)
    else Proceed(Apply(s, script[0]), i, script[1..])
  }

  /** A caller arrives, takes the mutex and, if the server is reachable, has a connection. */
  function Begun(s: Net, payload: string, reachable: bool): Net {
    Apply(Apply(Apply(s, Invoke(payload)), Lock(|s.calls|)), Dial(reachable))
  }

  /** Whatever becomes of it is one run of the protocol. */
  lemma {:induction false} ProceedIsRun(s: Net, i: nat, script: seq<Event>) returns (run: seq<Event>)
    ensures Proceed(s, i, script) == Run(s, run)
    decreases |script|
  {
    if Finished(s, i) {
      run := [];
    } else if script == [] {
      run := [] + [if s.calls[i].status.Sending? then SendFails else ReceiveFails];
      RunOneMore(s, [], run[0]);
    } else {
      var rest := ProceedIsRun(Apply(s, script[0]), i, script[1..]);
      run := [script[0]] + rest;
    }
  }

  /** What other events there are while a call is in progress change nothing. */
  lemma NotNow(s: Net, i: nat, e: Event)
    requires Busy(s, i) && !Finished(s, i) && !Elsewhere(e)
    requires if s.calls[i].status.Sending? then !e.Send? && !e.SendFails? else !e.Receive? && !e.ReceiveFails?
    ensures Apply(s, e) == s
  {
  }

  lemma LocksOnce(s: Net, i: nat, e: Event)
    requires i < |s.calls| && !s.calls[i].status.Waiting? && !s.calls[i].status.Locked?
    ensures i < |Apply(s, e).calls| && !Apply(s, e).calls[i].status.Locked?
  {
  }

  /** A call whose script brings it forward until nothing is left to do returns. */
  lemma {:induction false} ProceedReturns(s: Net, i: nat, most: nat, script: seq<Event>)
    requires (Underway(s, i) && !s.calls[i].status.Locked?) || (HasReturned(s, i) && s.mu.None?)
    requires Smooth(s, i, most, script) && forall e :: !Forward(Run(s, script), i, most, e)
    ensures HasReturned(Proceed(s, i, script), i)
    decreases |script|
  {
    if !HasReturned(s, i) && script == [] {
      assert Run(s, script) == s;
      var e := Waits(s, i, most);
    } else if !HasReturned(s, i) {
      var s' := Apply(s, script[0]);
      if Forward(s, i, most, script[0]) {
        ForwardWorks(s, i, most, script[0]);
      } else {
        AsideHarmless(s, i, most, script[0]);
      }
      LocksOnce(s, i, script[0]);
      assert Run(s, script) == Run(s', script[1..]);
      ProceedReturns(s', i, most, script[1..]);
    }
  }

  lemma CallKeeps(s: Net, payload: string, reachable: bool, script: seq<Event>)
    requires Inv(s)
    ensures Inv(Proceed(Begun(s, payload, reachable), |s.calls|, script))
  {
    ApplyKeeps(s, Invoke(payload));
    ApplyKeeps(Apply(s, Invoke(payload)), Lock(|s.calls|));
    ApplyKeeps(Apply(Apply(s, Invoke(payload)), Lock(|s.calls|)), Dial(reachable));
    var run := ProceedIsRun(Begun(s, payload, reachable), |s.calls|, script);
    RunKeeps(Begun(s, payload, reachable), run);
  }

  /** When the connection can be made and nothing fails on it, however slowly the bytes arrive and whatever
      else happens, a call that is given the time for all that remains to be done returns a line. */
  lemma CallReturns(s: Net, payload: string, most: nat, script: seq<Event>)
    requires Inv(s) && s.mu.None? && Available(s) && Lines.OneLine(payload)
    requires var begun := Begun(s, payload, true);
      && Smooth(begun, |s.calls|, most, script)
      && forall e :: !Forward(Run(begun, script), |s.calls|, most, e)
    ensures HasReturned(Proceed(Begun(s, payload, true), |s.calls|, script), |s.calls|)
  {
    var i, called := |s.calls|, Apply(s, Invoke(payload));
    ApplyKeeps(s, Invoke(payload));
    ApplyKeeps(called, Lock(i));
    ForwardWorks(Apply(called, Lock(i)), i, most, Dial(true));
    ProceedReturns(Begun(s, payload, true), i, most, script);
  }

  class Client {
    var mu: Option<nat>
    var conn: Option<nat>
    var reader: seq<Octet>
    // The calls made so far, and the world at the other end of the socket.
    var calls: seq<Call>
    var conns: seq<Conn>
    var log: seq<Exec>

    function View(): Net
      reads this
    {
      Net(calls, mu, conn, reader, conns, log)
    }

    constructor ()
      ensures View() == START
    {
      mu, conn, reader, calls, conns, log := None, None, [], [], [], [];
    }

    /** Something happens elsewhere. */
    method Meanwhile(e: Event)
      requires Elsewhere(e)
      modifies this`calls, this`conns, this`log
      ensures View() == Apply(old(View()), e)
    {
      var s := Apply(View(), e);
      ElsewhereFrame(View(), e);
      calls, conns, log := s.calls, s.conns, s.log;
    }

    /** `connect`, then the call is ready to send its line. */
    method Connect(i: nat, reachable: bool) returns (ok: bool)
      requires i < |calls| && mu == Some(i) && calls[i].status.Locked? && (conn.Some? ==> conn.value < |conns|)
      modifies this
      ensures ok <==> old(conn).Some? || reachable
      ensures View() == Apply(old(View()), Dial(reachable))
      ensures ok ==> Busy(View(), i) && calls[i].status == Sending(RequestLine(View(), i))
      ensures !ok ==> i < |calls| && calls[i].status.Failed? && conn.None? && mu.None?
    {
      var line := RequestLine(View(), i);
      if conn.None? {
        if !reachable {
          calls, mu := calls[i := calls[i].(status := Failed)], None;
          return false;
        }
        conn, reader := Some(|conns|), [];
        conns := conns + [Conn(true, [], [], Reading, [])];
      }
      calls := calls[i := calls[i].(status := Sending(line))];
      ok := true;
    }

    /** Closes the connection after a failure; the call fails. */
    method Abandon(i: nat, e: Event)
      requires Busy(View(), i)
      requires (e.SendFails? && calls[i].status.Sending?) || (e.ReceiveFails? && calls[i].status.Receiving?)
      modifies this
      ensures View() == Apply(old(View()), e)
      ensures i < |calls| && calls[i].status.Failed? && conn.None? && mu.None?
    {
      conns := conns[conn.value := conns[conn.value].(open := false)];
      conn, reader := None, [];
      calls := calls[i := calls[i].(status := Failed)];
      mu := None;
    }

    /** One write to the socket takes `n` more bytes of what is left. */
    method SendSome(i: nat, n: nat)
      requires Busy(View(), i) && calls[i].status.Sending?
      modifies this`calls, this`conns
      ensures View() == Apply(old(View()), Send(n)) && Busy(View(), i)
      ensures calls[i].status.Sending? || calls[i].status.Receiving?
    {
      var left := calls[i].status.left;
      if n <= |left| {
        var k := conn.value;
        conns := conns[k := conns[k].(toServer := conns[k].toServer + left[..n])];
        calls := calls[i := calls[i].(status := if n == |left| then Receiving else Sending(left[n..]))];
      }
    }

    /** `conn.Write`: until everything is sent, or an error, or the deadline, which is where `script` ends. */
    method Write(i: nat, script: seq<Event>) returns (ok: bool, rest: seq<Event>)
      requires Busy(View(), i) && calls[i].status.Sending?
      modifies this
      ensures Proceed(old(View()), i, script) == Proceed(View(), i, rest)
      ensures ok ==> Busy(View(), i) && calls[i].status.Receiving?
      ensures !ok ==> i < |calls| && calls[i].status.Failed? && conn.None? && mu.None?
      ensures |rest| <= |script|
    {
      rest := script;
      while calls[i].status.Sending?
        invariant Busy(View(), i) && (calls[i].status.Sending? || calls[i].status.Receiving?)
        invariant Proceed(old(View()), i, script) == Proceed(View(), i, rest) && |rest| <= |script|
        decreases |rest|
      {
        var e := if rest == [] then SendFails else rest[0];
        if rest != [] { rest := rest[1..]; }
        if e.SendFails? {
          Abandon(i, e);
          return false, rest;
        } else if e.Send? {
          SendSome(i, e.n);
        } else if Elsewhere(e) {
          ElsewhereFrame(View(), e);
          Meanwhile(e);
        } else {
          NotNow(View(), i, e);
        }
      }
      ok := true;
    }

    /** One read from the socket; a line is returned as soon as the reader holds one. */
    method ReceiveSome(i: nat, n: nat) returns (line: Option<seq<Octet>>)
      requires Busy(View(), i) && calls[i].status.Receiving?
      modifies this
      ensures View() == Apply(old(View()), Receive(n)) && i < |calls|
      ensures line.None? ==> Busy(View(), i) && calls[i].status.Receiving?
      ensures line.Some? ==> calls[i].status == Returned(line.value) && conn.Some? && mu.None?
    {
      line := None;
      var k := conn.value;
      if n <= |conns[k].toClient| {
        reader := reader + conns[k].toClient[..n];
        conns := conns[k := conns[k].(toClient := conns[k].toClient[n..])];
        var end := Break(reader);
        if end < |reader| {
          line := Some(reader[..end + 1]);
          reader := reader[end + 1..];
          calls := calls[i := calls[i].(status := Returned(line.value))];
          mu := None;
        }
      }
    }

    /** `ReadBytes('\n')`: until a line is there, or an error, or the deadline. */
    method ReadLine(i: nat, script: seq<Event>) returns (line: Option<seq<Octet>>)
      requires Busy(View(), i) && calls[i].status.Receiving?
      modifies this
      ensures View() == Proceed(old(View()), i, script) && i < |calls| && mu.None?
      ensures line.Some? ==> calls[i].status == Returned(line.value) && conn.Some?
      ensures line.None? ==> calls[i].status.Failed? && conn.None?
    {
      var rest := script;
      while true
        invariant Busy(View(), i) && calls[i].status.Receiving?
        invariant Proceed(old(View()), i, script) == Proceed(View(), i, rest)
        decreases |rest|
      {
        var e := if rest == [] then ReceiveFails else rest[0];
        if e.ReceiveFails? {
          Abandon(i, e);
          return None;
        } else if e.Receive? {
          line := ReceiveSome(i, e.n);
          if line.Some? { return line; }
        } else if Elsewhere(e) {
          ElsewhereFrame(View(), e);
          Meanwhile(e);
        } else {
          NotNow(View(), i, e);
        }
        rest := rest[1..];
      }
    }

    /** Connect, write the request line, read one line. */
    method Roundtrip(i: nat, reachable: bool, script: seq<Event>) returns (line: Option<seq<Octet>>)
      requires i < |calls| && mu == Some(i) && calls[i].status.Locked? && (conn.Some? ==> conn.value < |conns|)
      modifies this
      ensures View() == Proceed(Apply(old(View()), Dial(reachable)), i, script) && i < |calls| && mu.None?
      ensures line.Some? ==> calls[i].status == Returned(line.value) && conn.Some?
      ensures line.None? ==> calls[i].status.Failed? && conn.None?
    {
      var ok := Connect(i, reachable);
      if !ok { return None; }
      var rest;
      ok, rest := Write(i, script);
      if !ok { return None; }
      line := ReadLine(i, rest);
    }

    /** A caller arrives and takes the mutex. */
    method Begin(payload: string) returns (i: nat)
      requires mu.None? && Lines.OneLine(payload)
      modifies this`calls, this`mu
      ensures i == |old(calls)| < |calls| && mu == Some(i) && calls[i].status.Locked?
      ensures View() == Apply(Apply(old(View()), Invoke(payload)), Lock(i))
    {
      i := |calls|;
      calls := calls + [LockStep.Call(payload, Waiting)];
      calls, mu := calls[i := calls[i].(status := Locked)], Some(i);
    }

    /** A method of the client: it takes the mutex, sends its payload and returns the line it got. What it
        returns and leaves behind depends on nothing but the state, the network and the other callers. */
    method Call(payload: string, reachable: bool, script: seq<Event>) returns (line: Option<seq<Octet>>)
      requires Inv(View()) && mu.None? && Lines.OneLine(payload)
      modifies this
      ensures View() == Proceed(Begun(old(View()), payload, reachable), |old(calls)|, script)
      ensures Inv(View()) && mu.None?
      ensures var i := |old(calls)|;
        && i < |calls|
        && (line.Some? <==> calls[i].status.Returned?)
        && (line.Some? ==> conn.Some? && exists e: nat :: Handled(View(), i, e) && line.value == ReplyLine(View(), e))
        && (line.None? ==> calls[i].status.Failed? && conn.None?)
    {
      ghost var start := View();
      var i := Begin(payload);
      line := Roundtrip(i, reachable, script);
      CallKeeps(start, payload, reachable, script);
      assert CallOk(View(), i);
    }

    /** `Close`. */
    method Close()
      requires mu.None? && (conn.Some? ==> conn.value < |conns|)
      modifies this`conn, this`reader, this`conns
      ensures View() == Apply(old(View()), CloseClient) && conn.None?
    {
      if conn.Some? {
        conns := conns[conn.value := conns[conn.value].(open := false)];
        conn, reader := None, [];
      }
    }
  }
}
