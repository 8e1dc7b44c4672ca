/** Why lock-step matching is right: what every event keeps, and what follows for every run. */
module Matching {
  import opened Bytes
  import opened LockStep
  import Lines

  // ---- what is outstanding on a connection ----

  /** Request bytes the server has not taken up yet, in order. */
  function Untaken(c: Conn): seq<Octet> {
    if c.server.Closed? then [] else c.inbuf + c.toServer
  }

  function CallOf(x: Exec): nat {
    if x.line == [] then 0 else x.line[0].src
  }

  predicate Logged(s: Net, i: nat) {
    exists e :: 0 <= e < |s.log| && CallOf(s.log[e]) == i
  }

  predicate Started(st: Status) {
    !st.Waiting? && !st.Locked?
  }

  /** A line being handled is all that was outstanding on its connection: it is complete, unless the
      client has gone away; and it is not answered yet. */
  predicate HandlingOk(s: Net, c: Conn) {
    c.server.Handling? ==>
      && c.server.entry < |s.log| && s.log[c.server.entry].reply.None?
      && c.inbuf == [] && c.toServer == []
      && (c.open ==> Complete(s, c.server.entry))
  }

  predicate Complete(s: Net, e: nat)
    requires e < |s.log|
  {
    CallOf(s.log[e]) < |s.calls| && s.log[e].line == RequestLine(s, CallOf(s.log[e]))
  }

  /** The bytes not taken up on a connection are the beginning of one call's request line. */
  predicate ConnOk(s: Net, k: nat)
    requires k < |s.conns|
  {
    var c := s.conns[k];
    var u := Untaken(c);
    && HandlingOk(s, c)
    && (u != [] ==> u[0].src < |s.calls| && u <= RequestLine(s, u[0].src)
                    && !Logged(s, u[0].src) && Started(s.calls[u[0].src].status))
  }

  predicate OneConnPerEntry(s: Net) {
    forall k, l :: 0 <= k < l < |s.conns| && s.conns[k].server.Handling? && s.conns[l].server.Handling? ==>
      s.conns[k].server.entry != s.conns[l].server.entry
  }

  predicate OneConnPerCall(s: Net) {
    forall k, l :: 0 <= k < l < |s.conns| && Untaken(s.conns[k]) != [] && Untaken(s.conns[l]) != [] ==>
      Untaken(s.conns[k])[0].src != Untaken(s.conns[l])[0].src
  }

  predicate EntryOk(s: Net, e: nat)
    requires e < |s.log|
  {
    var x := s.log[e];
    && x.line != [] && (x.reply.Some? ==> Lines.OneLine(x.reply.value))
    && CallOf(x) < |s.calls| && x.line <= RequestLine(s, CallOf(x)) && Started(s.calls[CallOf(x)].status)
  }

  predicate OneEntryPerCall(s: Net) {
    forall d, e :: 0 <= d < e < |s.log| ==> CallOf(s.log[d]) != CallOf(s.log[e])
  }

  /** Log entry `e` is the server's answered handling of exactly call `i`'s line. */
  predicate Handled(s: Net, i: nat, e: nat)
    requires i < |s.calls|
  {
    e < |s.log| && s.log[e].line == RequestLine(s, i) && s.log[e].reply.Some?
  }

  ghost predicate CallOk(s: Net, i: nat)
    requires i < |s.calls|
  {
    && Lines.OneLine(s.calls[i].payload)
    && match s.calls[i].status
       case Returned(line) => exists e: nat :: Handled(s, i, e) && line == ReplyLine(s, e)
       case Waiting => true
       case Failed => true
       case _ => s.mu == Some(i)
  }

  // ---- the connection in use ----

  predicate Quiet(c: Conn) {
    && c.open && c.toServer == [] && c.inbuf == [] && c.toClient == []
    && (c.server.Reading? || c.server.Closed?)
  }

  predicate Idle(s: Net) {
    s.reader == [] && (s.conn.Some? ==> s.conn.value < |s.conns| && Quiet(s.conns[s.conn.value]))
  }

  /** No other connection carries unanswered bytes of call `i`. */
  predicate Nowhere(s: Net, i: nat, except: nat) {
    forall l :: 0 <= l < |s.conns| && l != except && Untaken(s.conns[l]) != [] ==>
      Untaken(s.conns[l])[0].src != i
  }

  predicate SendingOk(s: Net, i: nat, k: nat, left: seq<Octet>)
    requires i < |s.calls| && k < |s.conns|
  {
    var c, line := s.conns[k], RequestLine(s, i);
    && !Logged(s, i) && s.reader == [] && c.toClient == []
    && 0 < |left| <= |line| && left == line[|line| - |left|..]
    && (c.server.Closed? || (c.server.Reading? && c.inbuf + c.toServer == line[..|line| - |left|]))
  }

  predicate Unanswered(s: Net, i: nat, k: nat)
    requires i < |s.calls| && k < |s.conns|
  {
    var c := s.conns[k];
    && s.reader == [] && c.toClient == []
    && match c.server
       case Reading => !Logged(s, i) && c.inbuf + c.toServer == RequestLine(s, i)
       case Handling(e) => e < |s.log| && s.log[e].line == RequestLine(s, i)
       case Writing(_) => false
       case Closed => true
  }

  function Answer(s: Net, k: nat): seq<Octet>
    requires k < |s.conns|
  {
    var c := s.conns[k];
    s.reader + c.toClient + (if c.server.Writing? then c.server.rest else [])
  }

  predicate Answered(s: Net, i: nat, k: nat, e: nat)
    requires i < |s.calls| && k < |s.conns|
  {
    var c := s.conns[k];
    && Handled(s, i, e) && c.inbuf == [] && c.toServer == [] && !c.server.Handling?
    && (c.server.Writing? ==> c.server.rest != [])
    && Answer(s, k) <= ReplyLine(s, e)
  }

  ghost predicate ActiveOk(s: Net, i: nat)
    requires i < |s.calls|
  {
    match s.calls[i].status
    case Locked => Idle(s)
    case Sending(left) =>
      && s.conn.Some? && s.conn.value < |s.conns| && s.conns[s.conn.value].open
      && Nowhere(s, i, s.conn.value) && SendingOk(s, i, s.conn.value, left)
    case Receiving =>
      && s.conn.Some? && s.conn.value < |s.conns| && s.conns[s.conn.value].open
      && Nowhere(s, i, s.conn.value)
      && (Unanswered(s, i, s.conn.value) || exists e: nat :: Answered(s, i, s.conn.value, e))
    case _ => false
  }

  /** What does not depend on the connection in use. */
  ghost predicate Passive(s: Net) {
    && (forall i :: 0 <= i < |s.calls| ==> CallOk(s, i))
    && (forall k :: 0 <= k < |s.conns| ==> ConnOk(s, k))
    && (forall e :: 0 <= e < |s.log| ==> EntryOk(s, e))
    && OneConnPerCall(s)
    && OneConnPerEntry(s)
    && OneEntryPerCall(s)
  }

  ghost predicate Inv(s: Net) {
    && Passive(s)
    && (s.conn.None? ==> s.reader == [])
    && (s.mu.None? ==> Idle(s))
    && (s.mu.Some? ==> s.mu.value < |s.calls| && ActiveOk(s, s.mu.value))
  }

  /** Calls and log carry their facts over to any state that has the same ones. */
  lemma SameCalls(s: Net, s': Net)
    requires Passive(s) && s'.calls == s.calls && s'.log == s.log && s'.mu == s.mu
    ensures forall i :: 0 <= i < |s'.calls| ==> CallOk(s', i)
    ensures forall e :: 0 <= e < |s'.log| ==> EntryOk(s', e)
    ensures forall i :: Logged(s', i) <==> Logged(s, i)
    ensures OneEntryPerCall(s')
  {
    forall i | 0 <= i < |s'.calls| ensures CallOk(s', i) {
      assert CallOk(s, i);
      if s.calls[i].status.Returned? {
        var e: nat :| Handled(s, i, e) && s.calls[i].status.line == ReplyLine(s, e);
        assert Handled(s', i, e) && s'.calls[i].status.line == ReplyLine(s', e);
      }
    }
    forall e | 0 <= e < |s'.log| ensures EntryOk(s', e) {
      assert EntryOk(s, e);
    }
  }

  // ---- the server's steps ----

  /** A change to one connection that leaves the bytes not taken up alone, or drops them, disturbs no other. */
  lemma ConnChange(s: Net, k: nat, c: Conn)
    requires Passive(s) && k < |s.conns|
    requires Untaken(c) == Untaken(s.conns[k]) || Untaken(c) == []
    requires HandlingOk(s, c) && (c.server.Handling? ==> s.conns[k].server == c.server)
    ensures Passive(WithConn(s, k, c))
  {
    var s' := WithConn(s, k, c);
    SameCalls(s, s');
    forall l | 0 <= l < |s'.conns| ensures ConnOk(s', l) {
      assert ConnOk(s, l);
    }
  }

  lemma ConnNowhere(s: Net, k: nat, c: Conn)
    requires k < |s.conns| && (Untaken(c) == Untaken(s.conns[k]) || Untaken(c) == [])
    ensures forall i, except :: Nowhere(s, i, except) ==> Nowhere(WithConn(s, k, c), i, except)
  {
  }

  lemma LineEnd(s: string, src: nat)
    requires Lines.OneLine(s)
    ensures var t := Tagged(s + "\n", src);
      |t| == |s| + 1 && t[|s|].ch == '\n' && forall i :: 0 <= i < |s| ==> t[i].ch != '\n'
  {
  }

  /** A change to a connection the client no longer uses is invisible to the client. */
  lemma OtherConn(s: Net, k: nat, c: Conn)
    requires Inv(s) && k < |s.conns| && s.conn != Some(k)
    requires forall i, except :: Nowhere(s, i, except) ==> Nowhere(WithConn(s, k, c), i, except)
    ensures var s' := WithConn(s, k, c);
      && (s.mu.None? ==> Idle(s'))
      && (s.mu.Some? ==> ActiveOk(s', s.mu.value))
  {
    var s' := WithConn(s, k, c);
    assert forall i :: Logged(s', i) <==> Logged(s, i);
    if s.mu.Some? && s.calls[s.mu.value].status.Receiving? && !Unanswered(s, s.mu.value, s.conn.value) {
      var e: nat :| Answered(s, s.mu.value, s.conn.value, e);
      assert Answered(s', s.mu.value, s.conn.value, e);
    }
  }

  /** A change to the connection in use that the call holding the mutex can live with. */
  ghost predicate Tolerable(s: Net, k: nat, c: Conn)
    requires k < |s.conns|
  {
    var s' := WithConn(s, k, c);
    && c.open == s.conns[k].open
    && (Quiet(s.conns[k]) ==> Quiet(c))
    && (forall i, left :: 0 <= i < |s.calls| && SendingOk(s, i, k, left) ==> SendingOk(s', i, k, left))
    && (forall i :: 0 <= i < |s.calls| && Unanswered(s, i, k) ==> Unanswered(s', i, k))
    && (forall i, e: nat :: 0 <= i < |s.calls| && Answered(s, i, k, e) ==> Answered(s', i, k, e))
  }

  lemma ThisConn(s: Net, k: nat, c: Conn)
    requires Inv(s) && k < |s.conns| && s.conn == Some(k) && Tolerable(s, k, c)
    requires forall i, except :: Nowhere(s, i, except) ==> Nowhere(WithConn(s, k, c), i, except)
    ensures var s' := WithConn(s, k, c);
      && (s.mu.None? ==> Idle(s'))
      && (s.mu.Some? ==> ActiveOk(s', s.mu.value))
  {
    var s' := WithConn(s, k, c);
    if s.mu.Some? && s.calls[s.mu.value].status.Receiving? && !Unanswered(s, s.mu.value, k) {
      var e: nat :| Answered(s, s.mu.value, k, e);
      assert Answered(s', s.mu.value, k, e);
    }
  }

  lemma ConnStep(s: Net, k: nat, c: Conn)
    requires Inv(s) && k < |s.conns|
    requires Untaken(c) == Untaken(s.conns[k]) || Untaken(c) == []
    requires HandlingOk(s, c) && (c.server.Handling? ==> s.conns[k].server == c.server)
    requires s.conn == Some(k) ==> Tolerable(s, k, c)
    ensures Inv(WithConn(s, k, c))
  {
    ConnChange(s, k, c);
    ConnNowhere(s, k, c);
    if s.conn == Some(k) {
      ThisConn(s, k, c);
    } else {
      OtherConn(s, k, c);
    }
  }

  /** Moving bytes from the socket into the server's reader changes nothing that matters. */
  lemma ReadTolerable(s: Net, k: nat, c: Conn)
    requires k < |s.conns|
    requires s.conns[k].server == c.server == Reading && c.inbuf + c.toServer == s.conns[k].inbuf + s.conns[k].toServer
    requires c.open == s.conns[k].open && c.toClient == s.conns[k].toClient
    ensures Tolerable(s, k, c)
  {
  }

  lemma ServerReadKeeps(s: Net, k: nat, n: nat)
    requires Inv(s) && k < |s.conns|
    ensures Inv(ServerStep(s, k, ServerRead(k, n)))
  {
    var c := s.conns[k];
    if c.server.Reading? && n <= |c.toServer| {
      var c' := c.(inbuf := c.inbuf + c.toServer[..n], toServer := c.toServer[n..]);
      assert c'.inbuf + c'.toServer == c.inbuf + c.toServer;
      ReadTolerable(s, k, c');
      ConnStep(s, k, c');
    }
  }

  /** On the connection in use no newline is buffered before the whole request line has been sent. */
  lemma NoEarlyNewline(s: Net, i: nat, k: nat, left: seq<Octet>)
    requires Inv(s) && i < |s.calls| && k < |s.conns| && s.conns[k].server.Reading?
    ensures Break(s.conns[k].inbuf) < |s.conns[k].inbuf| ==> !SendingOk(s, i, k, left)
  {
    assert CallOk(s, i);
    LineEnd(s.calls[i].payload, i);
    var c, line := s.conns[k], RequestLine(s, i);
    if SendingOk(s, i, k, left) {
      forall m | 0 <= m < |c.inbuf| ensures c.inbuf[m] == line[m] {
        assert c.inbuf[m] == (c.inbuf + c.toServer)[m];
      }
    }
  }

  /** A newline among the bytes read ends the whole of one call's request line. */
  lemma WholeLine(s: Net, k: nat) returns (j: nat)
    requires Passive(s) && k < |s.conns| && s.conns[k].server.Reading?
    requires Break(s.conns[k].inbuf) < |s.conns[k].inbuf|
    ensures var (c, n) := (s.conns[k], Break(s.conns[k].inbuf));
      && c.inbuf[n + 1..] == [] && c.toServer == [] && c.inbuf[..n + 1] == c.inbuf
      && j < |s.calls| && c.inbuf == RequestLine(s, j) && c.inbuf[0].src == j
  {
    var c := s.conns[k];
    assert ConnOk(s, k);
    var u := Untaken(c);
    j := u[0].src;
    var whole := RequestLine(s, j);
    assert CallOk(s, j);
    LineEnd(s.calls[j].payload, j);
    assert forall m :: 0 <= m < |c.inbuf| ==> c.inbuf[m] == u[m] == whole[m];
    assert |u| == |c.inbuf| + |c.toServer|;
    assert u == c.inbuf;
  }

  /** A line that makes up all that was outstanding may be taken up. */
  predicate Ready(s: Net, k: nat, j: nat)
    requires k < |s.conns|
  {
    var c := s.conns[k];
    && c.server.Reading? && c.inbuf != [] && c.toServer == [] && c.inbuf[0].src == j
    && j < |s.calls| && (c.open ==> c.inbuf == RequestLine(s, j))
  }

  lemma TakeUpLogs(s: Net, k: nat, j: nat)
    requires Passive(s) && k < |s.conns| && Ready(s, k, j)
    ensures var s' := TakeUp(s, k, s.conns[k].inbuf, []);
      && (forall i :: Logged(s', i) <==> Logged(s, i) || i == j)
      && (forall e :: 0 <= e < |s'.log| ==> EntryOk(s', e))
      && OneEntryPerCall(s')
  {
    var s' := TakeUp(s, k, s.conns[k].inbuf, []);
    assert ConnOk(s, k) && Untaken(s.conns[k]) == s.conns[k].inbuf;
    assert forall e :: 0 <= e < |s.log| ==> s'.log[e] == s.log[e];
    assert CallOf(s'.log[|s.log|]) == j;
    forall i ensures Logged(s', i) <==> Logged(s, i) || i == j {
      if e :| 0 <= e < |s.log| && CallOf(s.log[e]) == i {
        assert CallOf(s'.log[e]) == i;
      }
    }
    forall e | 0 <= e < |s'.log| ensures EntryOk(s', e) {
      if e < |s.log| {
        assert EntryOk(s, e);
      }
    }
  }

  /** The new entry and the emptied connection fit in. */
  lemma TakeUpPassive(s: Net, k: nat, j: nat)
    requires Passive(s) && k < |s.conns| && Ready(s, k, j)
    ensures Passive(TakeUp(s, k, s.conns[k].inbuf, []))
    ensures forall i :: Logged(TakeUp(s, k, s.conns[k].inbuf, []), i) <==> Logged(s, i) || i == j
  {
    var s' := TakeUp(s, k, s.conns[k].inbuf, []);
    TakeUpLogs(s, k, j);
    forall i | 0 <= i < |s'.calls| ensures CallOk(s', i) {
      assert CallOk(s, i);
      if s.calls[i].status.Returned? {
        var e: nat :| Handled(s, i, e) && s.calls[i].status.line == ReplyLine(s, e);
        assert s'.log[e] == s.log[e];
        assert Handled(s', i, e) && s'.calls[i].status.line == ReplyLine(s', e);
      }
    }
    assert Untaken(s'.conns[k]) == [] && Untaken(s.conns[k]) == s.conns[k].inbuf;
    forall l | 0 <= l < |s'.conns|
      ensures ConnOk(s', l) && (l != k && s'.conns[l].server.Handling? ==> s'.conns[l].server.entry < |s.log|)
    {
      assert ConnOk(s, l);
      if s.conns[l].server.Handling? {
        assert s'.log[s.conns[l].server.entry] == s.log[s.conns[l].server.entry];
      }
    }
  }

  lemma TakeUpInUse(s: Net, k: nat, j: nat)
    requires Inv(s) && s.conn == Some(k) && k < |s.conns| && Ready(s, k, j)
    requires Break(s.conns[k].inbuf) < |s.conns[k].inbuf|
    ensures s.mu.Some? && ActiveOk(TakeUp(s, k, s.conns[k].inbuf, []), s.mu.value)
  {
    var s' := TakeUp(s, k, s.conns[k].inbuf, []);
    InUseIsOpen(s, k);
    var i := s.mu.value;
    if s.calls[i].status.Sending? {
      NoEarlyNewline(s, i, k, s.calls[i].status.left);
    }
    assert Unanswered(s, i, k) && s.conns[k].inbuf + s.conns[k].toServer == s.conns[k].inbuf;
    assert s'.log[|s.log|].line == s.conns[k].inbuf;
    assert Unanswered(s', i, k);
    assert forall l :: 0 <= l < |s.conns| && l != k ==> s'.conns[l] == s.conns[l];
  }

  /** Events on connections the client no longer uses. */
  predicate OnOtherConns(s: Net, s': Net) {
    && s'.calls == s.calls && s'.mu == s.mu && s'.conn == s.conn && s'.reader == s.reader
    && |s'.conns| == |s.conns| && |s.log| <= |s'.log|
    && (s.conn.Some? && s.conn.value < |s.conns| ==> s'.conns[s.conn.value] == s.conns[s.conn.value])
    && (forall l :: 0 <= l < |s.conns| ==> Untaken(s'.conns[l]) == Untaken(s.conns[l]) || Untaken(s'.conns[l]) == [])
    && (forall e :: 0 <= e < |s.log| ==>
          s'.log[e].line == s.log[e].line && (s.log[e].reply.Some? ==> s'.log[e] == s.log[e]))
  }

  lemma ActiveElsewhere(s: Net, s': Net, i: nat)
    requires OnOtherConns(s, s') && i < |s.calls| && ActiveOk(s, i)
    requires !s.calls[i].status.Locked? ==> (Logged(s', i) <==> Logged(s, i))
    ensures ActiveOk(s', i)
  {
    if s.calls[i].status.Receiving? && !Unanswered(s, i, s.conn.value) {
      var e: nat :| Answered(s, i, s.conn.value, e);
      assert Answered(s', i, s.conn.value, e);
    }
  }

  /** Taking up a line of a connection the client no longer uses is invisible to the client. */
  lemma TakeUpElsewhere(s: Net, k: nat, j: nat)
    requires Inv(s) && s.conn != Some(k) && k < |s.conns| && Ready(s, k, j)
    requires forall i :: Logged(TakeUp(s, k, s.conns[k].inbuf, []), i) <==> Logged(s, i) || i == j
    ensures var s' := TakeUp(s, k, s.conns[k].inbuf, []);
      && (s.mu.None? ==> Idle(s'))
      && (s.mu.Some? ==> ActiveOk(s', s.mu.value))
  {
    var s' := TakeUp(s, k, s.conns[k].inbuf, []);
    assert Untaken(s'.conns[k]) == [] && Untaken(s.conns[k]) == s.conns[k].inbuf;
    if s.mu.Some? {
      ActiveElsewhere(s, s', s.mu.value);
    }
  }

  lemma TakeUpKeeps(s: Net, k: nat, j: nat)
    requires Inv(s) && k < |s.conns| && Ready(s, k, j)
    requires s.conn == Some(k) ==> Break(s.conns[k].inbuf) < |s.conns[k].inbuf|
    ensures Inv(TakeUp(s, k, s.conns[k].inbuf, []))
  {
    TakeUpPassive(s, k, j);
    if s.conn == Some(k) {
      TakeUpInUse(s, k, j);
    } else {
      TakeUpElsewhere(s, k, j);
    }
  }

  lemma FullLineKeeps(s: Net, k: nat)
    requires Inv(s) && k < |s.conns| && s.conns[k].server.Reading? && Break(s.conns[k].inbuf) < |s.conns[k].inbuf|
    ensures Inv(ServerStep(s, k, ServerLine(k)))
  {
    var j := WholeLine(s, k);
    assert ServerStep(s, k, ServerLine(k)) == TakeUp(s, k, s.conns[k].inbuf, []);
    TakeUpKeeps(s, k, j);
  }

  lemma InUseIsOpen(s: Net, k: nat)
    requires Inv(s) && s.conn == Some(k)
    ensures k < |s.conns| && s.conns[k].open
  {
  }

  /** At the end of a dropped connection's bytes, an unterminated rest still counts as a line. */
  lemma LastLineKeeps(s: Net, k: nat)
    requires Inv(s) && k < |s.conns| && s.conns[k].server.Reading? && s.conns[k].toServer == [] && !s.conns[k].open
    requires Break(s.conns[k].inbuf) == |s.conns[k].inbuf|
    ensures Inv(ServerStep(s, k, ServerLine(k)))
  {
    var c := s.conns[k];
    if s.conn == Some(k) {
      InUseIsOpen(s, k);
    }
    if c.inbuf == [] {
      ConnStep(s, k, c.(server := Closed));
    } else {
      assert ConnOk(s, k) && Untaken(c) == c.inbuf;
      var j := c.inbuf[0].src;
      TakeUpKeeps(s, k, j);
    }
  }

  lemma ServerLineKeeps(s: Net, k: nat)
    requires Inv(s) && k < |s.conns|
    ensures Inv(ServerStep(s, k, ServerLine(k)))
  {
    var c := s.conns[k];
    if c.server.Reading? {
      if Break(c.inbuf) < |c.inbuf| {
        FullLineKeeps(s, k);
      } else if !c.open && c.toServer == [] {
        LastLineKeeps(s, k);
      }
    }
  }

  lemma WriteTolerable(s: Net, k: nat, c: Conn)
    requires k < |s.conns| && s.conns[k].server.Writing? && !c.server.Handling? && !c.server.Closed?
    requires c.toServer == s.conns[k].toServer && c.inbuf == s.conns[k].inbuf && c.open == s.conns[k].open
    requires c.server.Writing? ==> c.server.rest != []
    requires Answer(WithConn(s, k, c), k) == Answer(s, k)
    ensures Tolerable(s, k, c)
  {
  }

  lemma ServerWriteKeeps(s: Net, k: nat, n: nat)
    requires Inv(s) && k < |s.conns|
    ensures Inv(ServerStep(s, k, ServerWrite(k, n)))
  {
    var c, s' := s.conns[k], ServerStep(s, k, ServerWrite(k, n));
    if c.server.Writing? && n <= |c.server.rest| {
      assert c.server.rest == c.server.rest[..n] + c.server.rest[n..];
      assert Answer(s', k) == Answer(s, k);
      WriteTolerable(s, k, s'.conns[k]);
      ConnStep(s, k, s'.conns[k]);
    }
  }

  lemma DropTolerable(s: Net, k: nat)
    requires k < |s.conns|
    ensures Tolerable(s, k, s.conns[k].(server := Closed))
  {
  }

  lemma ServerDropsKeeps(s: Net, k: nat)
    requires Inv(s) && k < |s.conns|
    ensures Inv(ServerStep(s, k, ServerDrops(k)))
  {
    var c' := s.conns[k].(server := Closed);
    DropTolerable(s, k);
    ConnStep(s, k, c');
  }

  // ---- answering ----

  function AfterAnswer(s: Net, k: nat, reply: string): Net
    requires k < |s.conns| && s.conns[k].server.Handling? && s.conns[k].server.entry < |s.log|
  {
    var e := s.conns[k].server.entry;
    WithConn(s, k, s.conns[k].(server := Writing(Tagged(reply + "\n", e))))
    .(log := s.log[e := s.log[e].(reply := Some(reply))])
  }

  lemma AnswerLogs(s: Net, k: nat, reply: string)
    requires Passive(s) && k < |s.conns| && s.conns[k].server.Handling? && Lines.OneLine(reply)
    requires s.conns[k].server.entry < |s.log|
    ensures var s' := AfterAnswer(s, k, reply);
      && (forall i :: Logged(s', i) <==> Logged(s, i))
      && (forall e :: 0 <= e < |s'.log| ==> EntryOk(s', e))
      && OneEntryPerCall(s')
  {
    var s' := AfterAnswer(s, k, reply);
    assert forall e :: 0 <= e < |s.log| ==> s'.log[e].line == s.log[e].line && CallOf(s'.log[e]) == CallOf(s.log[e]);
    forall e | 0 <= e < |s'.log| ensures EntryOk(s', e) {
      assert EntryOk(s, e);
    }
  }

  lemma AnswerPassive(s: Net, k: nat, reply: string)
    requires Passive(s) && k < |s.conns| && s.conns[k].server.Handling? && Lines.OneLine(reply)
    requires s.conns[k].server.entry < |s.log|
    ensures Passive(AfterAnswer(s, k, reply))
    ensures forall i :: Logged(AfterAnswer(s, k, reply), i) <==> Logged(s, i)
  {
    var s' := AfterAnswer(s, k, reply);
    assert ConnOk(s, k);
    AnswerLogs(s, k, reply);
    forall i | 0 <= i < |s'.calls| ensures CallOk(s', i) {
      assert CallOk(s, i);
      if s.calls[i].status.Returned? {
        var e: nat :| Handled(s, i, e) && s.calls[i].status.line == ReplyLine(s, e);
        assert Handled(s', i, e) && s'.calls[i].status.line == ReplyLine(s', e);
      }
    }
    forall l | 0 <= l < |s'.conns| ensures ConnOk(s', l) {
      assert ConnOk(s, l);
      if l != k && s.conns[l].server.Handling? {
        assert s'.log[s.conns[l].server.entry] == s.log[s.conns[l].server.entry];
      }
    }
  }

  lemma AnswerInUse(s: Net, k: nat, reply: string)
    requires Inv(s) && s.conn == Some(k) && k < |s.conns| && s.conns[k].server.Handling?
    requires s.conns[k].server.entry < |s.log|
    ensures s.mu.Some? && ActiveOk(AfterAnswer(s, k, reply), s.mu.value)
  {
    var s', e := AfterAnswer(s, k, reply), s.conns[k].server.entry;
    InUseIsOpen(s, k);
    assert ConnOk(s, k);
    var i := s.mu.value;
    assert Unanswered(s, i, k);
    assert Answer(s', k) == ReplyLine(s', e);
    assert Answered(s', i, k, e);
    assert forall l :: 0 <= l < |s.conns| ==> Untaken(s'.conns[l]) == Untaken(s.conns[l]);
  }

  lemma AnswerElsewhere(s: Net, k: nat, reply: string)
    requires Inv(s) && s.conn != Some(k) && k < |s.conns| && s.conns[k].server.Handling?
    requires s.conns[k].server.entry < |s.log|
    requires forall i :: Logged(AfterAnswer(s, k, reply), i) <==> Logged(s, i)
    ensures var s' := AfterAnswer(s, k, reply);
      && (s.mu.None? ==> Idle(s'))
      && (s.mu.Some? ==> ActiveOk(s', s.mu.value))
  {
    var s' := AfterAnswer(s, k, reply);
    assert ConnOk(s, k);
    if s.mu.Some? {
      ActiveElsewhere(s, s', s.mu.value);
    }
  }

  lemma ServerAnswerKeeps(s: Net, k: nat, reply: string)
    requires Inv(s) && k < |s.conns|
    ensures Inv(ServerStep(s, k, ServerAnswer(k, reply)))
  {
    if s.conns[k].server.Handling? && s.conns[k].server.entry < |s.log| && Lines.OneLine(reply) {
      AnswerPassive(s, k, reply);
      if s.conn == Some(k) {
        AnswerInUse(s, k, reply);
      } else {
        AnswerElsewhere(s, k, reply);
      }
    }
  }

  // ---- the client's steps ----

  lemma StatusPassive(s: Net, i: nat, st: Status, m: Option<nat>)
    requires Passive(s) && i < |s.calls| && (s.mu.Some? ==> s.mu == Some(i))
    requires Started(s.calls[i].status) ==> Started(st)
    requires match st
      case Returned(line) => exists e: nat :: Handled(s, i, e) && line == ReplyLine(s, e)
      case Waiting => true
      case Failed => true
      case _ => m == Some(i)
    ensures Passive(WithCall(s, i, st).(mu := m))
  {
    var s' := WithCall(s, i, st).(mu := m);
    assert forall j :: Logged(s', j) <==> Logged(s, j);
    forall j | 0 <= j < |s'.calls| ensures CallOk(s', j) {
      assert CallOk(s, j);
      if s'.calls[j].status.Returned? {
        var e: nat :| Handled(s, j, e) && s'.calls[j].status.line == ReplyLine(s, e);
        assert Handled(s', j, e) && s'.calls[j].status.line == ReplyLine(s', e);
      }
    }
    forall k | 0 <= k < |s'.conns| ensures ConnOk(s', k) {
      assert ConnOk(s, k);
    }
    forall e | 0 <= e < |s'.log| ensures EntryOk(s', e) {
      assert EntryOk(s, e);
    }
  }

  lemma RewirePassive(s: Net, conn: Option<nat>, reader: seq<Octet>)
    requires Passive(s)
    ensures Passive(s.(conn := conn, reader := reader))
  {
    var s' := s.(conn := conn, reader := reader);
    SameCalls(s, s');
    forall k | 0 <= k < |s'.conns| ensures ConnOk(s', k) {
      assert ConnOk(s, k);
    }
  }

  lemma InvokeKeeps(s: Net, payload: string)
    requires Inv(s) && Lines.OneLine(payload)
    ensures Inv(s.(calls := s.calls + [Call(payload, Waiting)]))
  {
    var s' := s.(calls := s.calls + [Call(payload, Waiting)]);
    assert forall j :: Logged(s', j) <==> Logged(s, j);
    forall j | 0 <= j < |s'.calls| ensures CallOk(s', j) {
      if j < |s.calls| {
        assert CallOk(s, j);
        if s.calls[j].status.Returned? {
          var e: nat :| Handled(s, j, e) && s.calls[j].status.line == ReplyLine(s, e);
          assert Handled(s', j, e) && s'.calls[j].status.line == ReplyLine(s', e);
        }
      }
    }
    forall k | 0 <= k < |s'.conns| ensures ConnOk(s', k) {
      assert ConnOk(s, k);
    }
    forall e | 0 <= e < |s'.log| ensures EntryOk(s', e) {
      assert EntryOk(s, e);
    }
    if s.mu.Some? {
      var i := s.mu.value;
      assert s'.calls[i] == s.calls[i];
      if s.calls[i].status.Receiving? && !Unanswered(s, i, s.conn.value) {
        var e: nat :| Answered(s, i, s.conn.value, e);
        assert Answered(s', i, s.conn.value, e);
      }
    }
  }

  lemma LockKeeps(s: Net, i: nat)
    requires Inv(s) && s.mu.None? && i < |s.calls| && s.calls[i].status.Waiting?
    ensures Inv(WithCall(s, i, Locked).(mu := Some(i)))
  {
    StatusPassive(s, i, Locked, Some(i));
  }

  /** Closing the client's end of the connection in use, with a fresh reader. */
  lemma DropPassive(s: Net)
    requires Passive(s) && (s.conn.Some? ==> s.conn.value < |s.conns|)
    ensures Passive(Drop(s)) && Drop(s).conn.None? && (s.conn.Some? ==> Drop(s).reader == [])
    ensures Drop(s).calls == s.calls && Drop(s).mu == s.mu && (s.conn.None? ==> Drop(s) == s)
  {
    if s.conn.Some? {
      var k := s.conn.value;
      assert ConnOk(s, k);
      ConnChange(s, k, s.conns[k].(open := false));
      RewirePassive(WithConn(s, k, s.conns[k].(open := false)), None, []);
    }
  }

  lemma FailKeeps(s: Net, i: nat)
    requires Inv(s) && s.mu == Some(i)
    ensures Inv(WithCall(Drop(s), i, Failed).(mu := None))
  {
    DropPassive(s);
    StatusPassive(Drop(s), i, Failed, None);
  }

  lemma CloseKeeps(s: Net)
    requires Inv(s) && s.mu.None?
    ensures Inv(Drop(s))
  {
    DropPassive(s);
  }

  /** A call that has not begun to send appears nowhere. */
  lemma NotStarted(s: Net, i: nat)
    requires Passive(s) && i < |s.calls| && !Started(s.calls[i].status)
    ensures !Logged(s, i)
    ensures forall l :: 0 <= l < |s.conns| && Untaken(s.conns[l]) != [] ==> Untaken(s.conns[l])[0].src != i
  {
    forall e | 0 <= e < |s.log| ensures CallOf(s.log[e]) != i {
      assert EntryOk(s, e);
    }
    forall l | 0 <= l < |s.conns| && Untaken(s.conns[l]) != [] ensures Untaken(s.conns[l])[0].src != i {
      assert ConnOk(s, l);
    }
  }

  lemma BeginSending(s: Net, i: nat)
    requires Inv(s) && s.mu == Some(i) && s.calls[i].status.Locked? && s.conn.Some?
    ensures Inv(WithCall(s, i, Sending(RequestLine(s, i))))
  {
    NotStarted(s, i);
    StatusPassive(s, i, Sending(RequestLine(s, i)), Some(i));
    var s', line := WithCall(s, i, Sending(RequestLine(s, i))), RequestLine(s, i);
    assert s' == s'.(mu := Some(i));
    assert RequestLine(s', i) == line && line[0..] == line && line[..0] == [];
  }

  /** A new connection, with nothing on it. */
  lemma Connected(s: Net)
    requires Inv(s) && s.mu.Some? && s.calls[s.mu.value].status.Locked? && s.conn.None?
    ensures Inv(s.(conn := Some(|s.conns|), reader := [], conns := s.conns + [Conn(true, [], [], Reading, [])]))
  {
    var s' := s.(conn := Some(|s.conns|), reader := [], conns := s.conns + [Conn(true, [], [], Reading, [])]);
    SameCalls(s, s');
    assert Untaken(s'.conns[|s.conns|]) == [];
    forall k | 0 <= k < |s'.conns| ensures ConnOk(s', k) {
      if k < |s.conns| {
        assert ConnOk(s, k) && s'.conns[k] == s.conns[k];
      }
    }
  }

  lemma DialKeeps(s: Net, i: nat, ok: bool)
    requires Inv(s) && s.mu == Some(i)
    ensures Inv(ClientStep(s, i, Dial(ok)))
  {
    if s.calls[i].status.Locked? {
      if s.conn.Some? {
        BeginSending(s, i);
      } else if ok {
        var s1 := s.(conn := Some(|s.conns|), reader := [], conns := s.conns + [Conn(true, [], [], Reading, [])]);
        Connected(s);
        BeginSending(s1, i);
        assert WithCall(s1, i, Sending(RequestLine(s1, i))) == ClientStep(s, i, Dial(ok));
      } else {
        StatusPassive(s, i, Failed, None);
      }
    }
  }

  // ---- sending ----

  lemma MoreSent(read: seq<Octet>, sent: seq<Octet>, line: seq<Octet>, left: seq<Octet>, n: nat)
    requires n <= |left| <= |line| && left == line[|line| - |left|..] && read + sent == line[..|line| - |left|]
    ensures read + (sent + left[..n]) == line[..|line| - |left| + n]
    ensures n > 0 ==> read + (sent + left[..n]) != []
  {
    assert read + (sent + left[..n]) == (read + sent) + left[..n];
  }

  /** More of call `i`'s line on its connection, and on no other. */
  lemma SentPassive(s: Net, i: nat, k: nat, c: Conn, n: nat)
    requires Passive(s) && i < |s.calls| && k < |s.conns| && Nowhere(s, i, k)
    requires n <= |RequestLine(s, i)| && c.server.Reading? && c.inbuf + c.toServer == RequestLine(s, i)[..n]
    requires !Logged(s, i) && Started(s.calls[i].status)
    ensures Passive(WithConn(s, k, c))
  {
    var s', line := WithConn(s, k, c), RequestLine(s, i);
    SameCalls(s, s');
    assert Untaken(c) == line[..n];
    assert RequestLine(s', i) == line && (n > 0 ==> line[..n][0].src == i);
    assert ConnOk(s', k);
    forall l | 0 <= l < |s'.conns| && l != k ensures ConnOk(s', l) {
      assert ConnOk(s, l) && s'.conns[l] == s.conns[l];
    }
  }

  lemma SendPassive(s: Net, i: nat, k: nat, left: seq<Octet>, n: nat)
    requires Passive(s) && i < |s.calls| && k < |s.conns| && n <= |left|
    requires s.calls[i].status == Sending(left) && SendingOk(s, i, k, left) && Nowhere(s, i, k)
    ensures var c := s.conns[k];
      && Passive(WithConn(s, k, c.(toServer := c.toServer + left[..n])))
      && (c.server.Reading? ==>
            c.inbuf + (c.toServer + left[..n]) == RequestLine(s, i)[..|RequestLine(s, i)| - |left| + n])
  {
    var c := s.conns[k];
    var c' := c.(toServer := c.toServer + left[..n]);
    if c.server.Closed? {
      assert ConnOk(s, k);
      ConnChange(s, k, c');
    } else {
      MoreSent(c.inbuf, c.toServer, RequestLine(s, i), left, n);
      SentPassive(s, i, k, c', |RequestLine(s, i)| - |left| + n);
    }
  }

  lemma SendKeeps(s: Net, i: nat, n: nat)
    requires Inv(s) && s.mu == Some(i)
    ensures Inv(ClientStep(s, i, Send(n)))
  {
    if s.calls[i].status.Sending? && n <= |s.calls[i].status.left| {
      var k, left := s.conn.value, s.calls[i].status.left;
      var c, line := s.conns[k], RequestLine(s, i);
      var c' := c.(toServer := c.toServer + left[..n]);
      var s1 := WithConn(s, k, c');
      var st := if n == |left| then Receiving else Sending(left[n..]);
      SendPassive(s, i, k, left, n);
      StatusPassive(s1, i, st, Some(i));
      var s' := WithCall(s1, i, st);
      assert s' == s'.(mu := Some(i));
      assert RequestLine(s', i) == line && line[..|line|] == line;
      assert left[n..] == line[|line| - (|left| - n)..];
      assert forall j :: Logged(s', j) <==> Logged(s, j);
      assert Nowhere(s', i, k);
    }
  }

  // ---- receiving ----

  lemma ReceiveNothing(s: Net, i: nat, k: nat, n: nat)
    requires Inv(s) && s.mu == Some(i) && s.calls[i].status.Receiving? && s.conn == Some(k)
    requires Unanswered(s, i, k) && n <= |s.conns[k].toClient|
    ensures ClientStep(s, i, Receive(n)) == s
  {
    var c := s.conns[k];
    assert c.toClient[..n] == [] && c.toClient[n..] == [] && s.reader + [] == [];
    assert s.conns[k := c.(toClient := [])] == s.conns;
  }

  /** The bytes read so far are the beginning of one reply line: a newline among them is its end. */
  lemma ReplyComplete(s: Net, i: nat, k: nat, e: nat, got: seq<Octet>, more: seq<Octet>)
    requires Passive(s) && i < |s.calls| && k < |s.conns| && Answered(s, i, k, e) && got + more == Answer(s, k)
    ensures Break(got) < |got| ==> got[..Break(got) + 1] == got == ReplyLine(s, e) && more == []
  {
    assert EntryOk(s, e);
    LineEnd(s.log[e].reply.value, e);
    var whole := ReplyLine(s, e);
    forall m | 0 <= m < |got| ensures got[m] == whole[m] {
      assert got[m] == (got + more)[m] == Answer(s, k)[m];
    }
  }

  function Got(s: Net, k: nat, n: nat): seq<Octet>
    requires k < |s.conns| && n <= |s.conns[k].toClient|
  {
    s.reader + s.conns[k].toClient[..n]
  }

  function Yet(s: Net, k: nat, n: nat): seq<Octet>
    requires k < |s.conns| && n <= |s.conns[k].toClient|
  {
    s.conns[k].toClient[n..] + (if s.conns[k].server.Writing? then s.conns[k].server.rest else [])
  }

  lemma GotPassive(s: Net, k: nat, n: nat, reader: seq<Octet>)
    requires Passive(s) && s.conn == Some(k) && k < |s.conns| && n <= |s.conns[k].toClient|
    ensures Passive(WithConn(s, k, s.conns[k].(toClient := s.conns[k].toClient[n..])).(reader := reader))
    ensures Got(s, k, n) + Yet(s, k, n) == Answer(s, k)
  {
    var c := s.conns[k];
    var c' := c.(toClient := c.toClient[n..]);
    assert ConnOk(s, k);
    ConnChange(s, k, c');
    var s1 := WithConn(s, k, c');
    RewirePassive(s1, s1.conn, reader);
    assert s1.(reader := reader) == s1.(conn := s1.conn, reader := reader);
    assert c.toClient == c.toClient[..n] + c.toClient[n..];
  }

  lemma ReceivePart(s: Net, i: nat, k: nat, e: nat, n: nat)
    requires Inv(s) && s.mu == Some(i) && s.calls[i].status.Receiving? && s.conn == Some(k)
    requires Answered(s, i, k, e) && n <= |s.conns[k].toClient| && Break(Got(s, k, n)) == |Got(s, k, n)|
    ensures Inv(ClientStep(s, i, Receive(n)))
  {
    var s' := ClientStep(s, i, Receive(n));
    GotPassive(s, k, n, Got(s, k, n));
    assert Answer(s', k) == Got(s, k, n) + Yet(s, k, n);
    assert Answered(s', i, k, e);
    assert forall l :: 0 <= l < |s.conns| ==> Untaken(s'.conns[l]) == Untaken(s.conns[l]);
  }

  /** Once the whole reply has been read the connection is quiet again. */
  lemma WholeQuiet(s: Net, i: nat, k: nat, e: nat, n: nat)
    requires i < |s.calls| && k < |s.conns| && s.conns[k].open
    requires Answered(s, i, k, e) && n <= |s.conns[k].toClient| && Yet(s, k, n) == []
    ensures Quiet(s.conns[k].(toClient := s.conns[k].toClient[n..]))
  {
    assert |s.conns[k].toClient[n..]| <= |Yet(s, k, n)|;
  }

  lemma WholeStep(s: Net, i: nat, k: nat, n: nat)
    requires i < |s.calls| && s.calls[i].status.Receiving? && s.conn == Some(k) && k < |s.conns|
    requires n <= |s.conns[k].toClient| && Break(Got(s, k, n)) < |Got(s, k, n)|
    requires Got(s, k, n)[..Break(Got(s, k, n)) + 1] == Got(s, k, n)
    ensures ClientStep(s, i, Receive(n))
         == WithCall(WithConn(s, k, s.conns[k].(toClient := s.conns[k].toClient[n..])).(reader := []), i,
                     Returned(Got(s, k, n))).(mu := None)
  {
    var got := Got(s, k, n);
    assert |got[..Break(got) + 1]| == |got|;
    assert got[Break(got) + 1..] == [];
  }

  lemma ReceiveWhole(s: Net, i: nat, k: nat, e: nat, n: nat)
    requires Inv(s) && s.mu == Some(i) && s.calls[i].status.Receiving? && s.conn == Some(k)
    requires Answered(s, i, k, e) && n <= |s.conns[k].toClient| && Break(Got(s, k, n)) < |Got(s, k, n)|
    ensures Inv(ClientStep(s, i, Receive(n)))
  {
    var got := Got(s, k, n);
    var c' := s.conns[k].(toClient := s.conns[k].toClient[n..]);
    var s2 := WithConn(s, k, c').(reader := []);
    GotPassive(s, k, n, []);
    ReplyComplete(s, i, k, e, got, Yet(s, k, n));
    WholeQuiet(s, i, k, e, n);
    WholeStep(s, i, k, n);
    assert Handled(s2, i, e) && got == ReplyLine(s2, e);
    StatusPassive(s2, i, Returned(got), None);
  }

  lemma ReceiveKeeps(s: Net, i: nat, n: nat)
    requires Inv(s) && s.mu == Some(i)
    ensures Inv(ClientStep(s, i, Receive(n)))
  {
    if s.calls[i].status.Receiving? && n <= |s.conns[s.conn.value].toClient| {
      if Unanswered(s, i, s.conn.value) {
        ReceiveNothing(s, i, s.conn.value, n);
      } else {
        var e: nat :| Answered(s, i, s.conn.value, e);
        if Break(Got(s, s.conn.value, n)) < |Got(s, s.conn.value, n)| {
          ReceiveWhole(s, i, s.conn.value, e, n);
        } else {
          ReceivePart(s, i, s.conn.value, e, n);
        }
      }
    }
  }

  // ---- every run ----

  lemma ClientStepKeeps(s: Net, i: nat, e: Event)
    requires Inv(s) && s.mu == Some(i)
    ensures Inv(ClientStep(s, i, e))
  {
    match e
    case Dial(ok) => DialKeeps(s, i, ok);
    case Send(n) => SendKeeps(s, i, n);
    case SendFails => FailKeeps(s, i);
    case Receive(n) => ReceiveKeeps(s, i, n);
    case ReceiveFails => FailKeeps(s, i);
    case _ =>
  }

  lemma ServerStepKeeps(s: Net, k: nat, e: Event)
    requires Inv(s) && k < |s.conns|
    ensures Inv(ServerStep(s, k, e))
  {
    match e
    case ServerRead(_, n) => ServerReadKeeps(s, k, n);
    case ServerLine(_) => ServerLineKeeps(s, k);
    case ServerAnswer(_, reply) => ServerAnswerKeeps(s, k, reply);
    case ServerWrite(_, n) => ServerWriteKeeps(s, k, n);
    case ServerDrops(_) => ServerDropsKeeps(s, k);
    case _ =>
  }

  lemma ApplyKeeps(s: Net, e: Event)
    requires Inv(s)
    ensures Inv(Apply(s, e))
  {
    if e.Invoke? {
      if Lines.OneLine(e.payload) { InvokeKeeps(s, e.payload); }
    } else if e.Lock? {
      if s.mu.None? && e.call < |s.calls| && s.calls[e.call].status.Waiting? { LockKeeps(s, e.call); }
    } else if e.CloseClient? {
      if s.mu.None? { CloseKeeps(s); }
    } else if AtServer(e).Some? {
      if AtServer(e).value < |s.conns| { ServerStepKeeps(s, AtServer(e).value, e); }
    } else if s.mu.Some? {
      ClientStepKeeps(s, s.mu.value, e);
    }
  }

  lemma {:induction false} RunKeeps(s: Net, run: seq<Event>)
    requires Inv(s)
    ensures Inv(Run(s, run))
    decreases |run|
  {
    if run != [] {
      ApplyKeeps(s, run[0]);
      RunKeeps(Apply(s, run[0]), run[1..]);
    }
  }

  lemma StartInv()
    ensures Inv(START)
  {
  }

  // ---- the theorems ----

  /** Whenever the client's mutex is free, nothing is outstanding on the connection it keeps: no byte
      of a request or of a reply is in a buffer, in the socket, or at the server. */
  lemma NothingOutstanding(run: seq<Event>)
    requires Run(START, run).mu.None? && Run(START, run).conn.Some?
    ensures var s := Run(START, run);
      s.conn.value < |s.conns| && Quiet(s.conns[s.conn.value]) && s.reader == []
  {
    StartInv();
    RunKeeps(START, run);
  }

  /** What a successful call returns is, byte for byte, the answer the server gave to that very call's
      line; and the server took up that call's line exactly once. */
  lemma AnswerBelongsToCall(run: seq<Event>, i: nat) returns (e: nat)
    requires i < |Run(START, run).calls| && Run(START, run).calls[i].status.Returned?
    ensures var s := Run(START, run);
      && Handled(s, i, e)
      && s.calls[i].status.line == ReplyLine(s, e)
      && forall d :: 0 <= d < |s.log| && CallOf(s.log[d]) == i ==> d == e
  {
    var s := Run(START, run);
    StartInv();
    RunKeeps(START, run);
    assert CallOk(s, i);
    e :| Handled(s, i, e) && s.calls[i].status.line == ReplyLine(s, e);
    assert s.log[e].line[0].src == i;
  }

  /** A call that failed, timed out or was cut short mid-write was taken up at most once, and nothing
      but a beginning of its own request was; a call that never began to send was not taken up at all. */
  lemma AtMostOnce(run: seq<Event>, i: nat, d: nat, e: nat)
    requires i < |Run(START, run).calls| && d < |Run(START, run).log| && e < |Run(START, run).log|
    requires CallOf(Run(START, run).log[d]) == i && CallOf(Run(START, run).log[e]) == i
    ensures d == e
    ensures var s := Run(START, run);
      s.log[e].line != [] && s.log[e].line <= RequestLine(s, i) && Started(s.calls[i].status)
  {
    StartInv();
    RunKeeps(START, run);
    assert EntryOk(Run(START, run), e);
  }
}
