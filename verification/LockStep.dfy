/** The lock-step control protocol: one Go client, shared by many callers, and a server that answers
    every line. Requests carry no ids; matching rests on the client's mutex, on dropping the
    connection after a failed write or read, and on the server answering each line once.
    Bytes travel in pieces of any size, writes and reads may fail at any point, and connections that
    the client has dropped live on at the server. */
module LockStep {
  import opened Bytes
  import Lines

  /** A byte in flight, with where it came from: the call whose request it is part of or, on the
      way back, the log position of the answer. No component ever looks at `src`. */
  datatype Octet = Octet(ch: char, src: nat)

  datatype Server =
    | Reading
    | Handling(entry: nat)
    | Writing(rest: seq<Octet>)
    | Closed

  /** `open` is the client's end; `toServer` and `toClient` are the two directions of the socket and
      `inbuf` the server's reader. */
  datatype Conn = Conn(open: bool, toServer: seq<Octet>, inbuf: seq<Octet>, server: Server, toClient: seq<Octet>)

  datatype Status =
    | Waiting
    | Locked
    | Sending(left: seq<Octet>)
    | Receiving
    | Returned(line: seq<Octet>)
    | Failed

  datatype Call = Call(payload: string, status: Status)

  /** A line the server took up and, once it has, what it answered. */
  datatype Exec = Exec(line: seq<Octet>, reply: Option<string>)

  datatype Net = Net(
    calls: seq<Call>, mu: Option<nat>, conn: Option<nat>, reader: seq<Octet>, conns: seq<Conn>, log: seq<Exec>)

  const START := Net([], None, None, [], [], [])

  datatype Event =
    | Invoke(payload: string)
    | Lock(call: nat)
    | Dial(ok: bool)
    | Send(n: nat)
    | SendFails
    | Receive(n: nat)
    | ReceiveFails
    | CloseClient
    | ServerRead(k: nat, n: nat)
    | ServerLine(k: nat)
    | ServerAnswer(k: nat, reply: string)
    | ServerWrite(k: nat, n: nat)
    | ServerDrops(k: nat)

  function Tagged(s: string, src: nat): (t: seq<Octet>)
    ensures |t| == |s|
  {
    seq(|s|, i requires 0 <= i < |s| => Octet(s[i], src))
  }

  function Text(line: seq<Octet>): (s: string)
    ensures |s| == |line|
  {
    seq(|line|, i requires 0 <= i < |line| => line[i].ch)
  }

  /** The position of the first newline, or the length if there is none. */
  function Break(s: seq<Octet>): (n: nat)
    ensures n <= |s| && (n < |s| ==> s[n].ch == '\n')
    ensures forall i :: 0 <= i < n ==> s[i].ch != '\n'
  {
    assert forall i :: 0 <= i < |s| ==> Text(s)[i] == s[i].ch;
    Lines.Break(Text(s))
  }

  function RequestLine(s: Net, i: nat): seq<Octet>
    requires i < |s.calls|
  {
    Tagged(s.calls[i].payload + "\n", i)
  }

  function ReplyLine(s: Net, e: nat): seq<Octet>
    requires e < |s.log| && s.log[e].reply.Some?
  {
    Tagged(s.log[e].reply.value + "\n", e)
  }

  // ---- steps ----

  function WithCall(s: Net, i: nat, st: Status): Net
    requires i < |s.calls|
  {
    s.(calls := s.calls[i := s.calls[i].(status := st)])
  }

  function WithConn(s: Net, k: nat, c: Conn): Net
    requires k < |s.conns|
  {
    s.(conns := s.conns[k := c])
  }

  function Drop(s: Net): Net {
    match s.conn
    case Some(k) => if k < |s.conns| then WithConn(s, k, s.conns[k].(open := false)).(conn := None, reader := []) else s
    case None => s
  }

  /** The server takes up a line: from here on it may be executed. */
  function TakeUp(s: Net, k: nat, line: seq<Octet>, rest: seq<Octet>): Net
    requires k < |s.conns|
  {
    WithConn(s, k, s.conns[k].(server := Handling(|s.log|), inbuf := rest)).(log := s.log + [Exec(line, None)])
  }

  /** The client operation of the call that holds the mutex. */
  function ClientStep(s: Net, i: nat, e: Event): Net
    requires i < |s.calls|
  {
    var st := s.calls[i].status;
    match e
    case Dial(ok) =>
      if !st.Locked? then s
      else if s.conn.Some? then WithCall(s, i, Sending(RequestLine(s, i)))
      else if !ok then WithCall(s, i, Failed).(mu := None)
      else WithCall(s, i, Sending(RequestLine(s, i)))
           .(conn := Some(|s.conns|), reader := [], conns := s.conns + [Conn(true, [], [], Reading, [])])
    case Send(n) =>
      if !st.Sending? || s.conn.None? || s.conn.value >= |s.conns| || n > |st.left| then s
      else
        var k := s.conn.value;
        var s' := WithConn(s, k, s.conns[k].(toServer := s.conns[k].toServer + st.left[..n]));
        WithCall(s', i, if n == |st.left| then Receiving else Sending(st.left[n..]))
    case SendFails => if st.Sending? then WithCall(Drop(s), i, Failed).(mu := None) else s
    case Receive(n) =>
      if !st.Receiving? || s.conn.None? || s.conn.value >= |s.conns| || n > |s.conns[s.conn.value].toClient| then s
      else
        var k := s.conn.value;
        var got := s.reader + s.conns[k].toClient[..n];
        var s' := WithConn(s, k, s.conns[k].(toClient := s.conns[k].toClient[n..]));
        if Break(got) < |got|
        then WithCall(s', i, Returned(got[..Break(got) + 1])).(mu := None, reader := got[Break(got) + 1..])
        else s'.(reader := got)
    case ReceiveFails => if st.Receiving? then WithCall(Drop(s), i, Failed).(mu := None) else s
    case _ => s
  }

  function ServerStep(s: Net, k: nat, e: Event): Net
    requires k < |s.conns|
  {
    var c := s.conns[k];
    match e
    case ServerRead(_, n) =>
      if !c.server.Reading? || n > |c.toServer| then s
      else WithConn(s, k, c.(inbuf := c.inbuf + c.toServer[..n], toServer := c.toServer[n..]))
    case ServerLine(_) =>
      var n := Break(c.inbuf);
      if !c.server.Reading? then s
      else if n < |c.inbuf| then TakeUp(s, k, c.inbuf[..n + 1], c.inbuf[n + 1..])
      else if c.open || c.toServer != [] then s
      else if c.inbuf == [] then WithConn(s, k, c.(server := Closed))
      else TakeUp(s, k, c.inbuf, [])
    case ServerAnswer(_, reply) =>
      if !c.server.Handling? || c.server.entry >= |s.log| || !Lines.OneLine(reply) then s
      else
        var e := c.server.entry;
        WithConn(s, k, c.(server := Writing(Tagged(reply + "\n", e))))
        .(log := s.log[e := s.log[e].(reply := Some(reply))])
    case ServerWrite(_, n) =>
      if !c.server.Writing? || n > |c.server.rest| then s
      else
        WithConn(s, k, c.(toClient := c.toClient + c.server.rest[..n],
                          server := if n == |c.server.rest| then Reading else Writing(c.server.rest[n..])))
    case ServerDrops(_) => WithConn(s, k, c.(server := Closed))
    case _ => s
  }

  /** The connection whose server end moves, if it is a server's event. */
  function AtServer(e: Event): Option<nat> {
    match e
    case ServerRead(k, _) => Some(k)
    case ServerLine(k) => Some(k)
    case ServerAnswer(k, _) => Some(k)
    case ServerWrite(k, _) => Some(k)
    case ServerDrops(k) => Some(k)
    case _ => None
  }

  /** Any event sequence is a run: an event that is not possible is a no-op. */
  function Apply(s: Net, e: Event): Net {
    match e
    case Invoke(payload) => if Lines.OneLine(payload) then s.(calls := s.calls + [Call(payload, Waiting)]) else s
    case Lock(i) =>
      if s.mu.None? && i < |s.calls| && s.calls[i].status.Waiting?
      then WithCall(s, i, Locked).(mu := Some(i)) else s
    case CloseClient => if s.mu.None? then Drop(s) else s
    case _ =>
      match AtServer(e)
      case Some(k) => if k < |s.conns| then ServerStep(s, k, e) else s
      case None => if s.mu.Some? && s.mu.value < |s.calls| then ClientStep(s, s.mu.value, e) else s
  }

  function Run(s: Net, run: seq<Event>): Net
    decreases |run|
  {
    if run == [] then s else Run(Apply(s, run[0]), run[1..])
  }

  lemma {:induction false} RunConcat(s: Net, a: seq<Event>, b: seq<Event>)
    ensures Run(s, a + b) == Run(Run(s, a), b)
    decreases |a|
  {
    if a == [] {
      assert a + b == b;
    } else {
      assert (a + b)[0] == a[0] && (a + b)[1..] == a[1..] + b;
      RunConcat(Apply(s, a[0]), a[1..], b);
    }
  }

  lemma RunOneMore(s: Net, a: seq<Event>, e: Event)
    ensures Run(s, a + [e]) == Apply(Run(s, a), e)
  {
    RunConcat(s, a, [e]);
    assert [e][1..] == [];
  }
}
