/** One connection of the server: read a line, answer it, until the client closes. */
module Serving {
  import opened Bytes
  import opened Daemon
  import opened Envelopes
  import opened Json
  import opened Lines
  import opened Whitespace

  /** What one read of the socket returns before the end of the stream: never nothing. */
  type Chunk = s: string | s != [] witness "\n"

  lemma TakeMore(before: string, all: string, n: nat, m: nat)
    requires n <= m <= |all|
    ensures before + all[..n] + all[n..m] == before + all[..m]
  {
    assert all[..n] + all[n..m] == all[..m];
  }

  /** What the connection's loop calls: the parser of lines, the handler, which may answer each of a
      connection's lines as it likes, and the printer of responses. */
  datatype Endpoint = Endpoint(
    parse: string -> Option<Request>, handle: (Request, nat) -> Response, show: Response -> string)

  function ReplyTo(s: Endpoint, line: string, n: nat): Response {
    match s.parse(line) case Some(req) => s.handle(req, n) case None => Error(400, BadJson)
  }

  function ReplyLine(s: Endpoint, line: string, n: nat): string {
    s.show(ReplyTo(s, line, n)) + "\n"
  }

  /** The lines written in answer to the lines read, the first of which is the connection's `n`-th. */
  function Replies(s: Endpoint, lines: seq<string>, n: nat): (out: seq<string>)
    ensures |out| == |lines|
    ensures forall k :: 0 <= k < |lines| ==> out[k] == ReplyLine(s, lines[k], n + k)
  {
    if lines == [] then [] else [ReplyLine(s, lines[0], n)] + Replies(s, lines[1..], n + 1)
  }

  /** All that a connection writes in answer to the stream `input`. */
  function Output(s: Endpoint, input: string, n: nat): string {
    Concat(Replies(s, LinesOf(input), n))
  }

  class Connection {
    var incoming: seq<Chunk>
    var buffer: string
    var line: string
    var written: string

    /** What the client has sent or will send that has not been read as a line yet. */
    function Pending(): string
      reads this
    {
      buffer + Concat(incoming)
    }

    constructor (chunks: seq<Chunk>)
      ensures Pending() == Concat(chunks) && written == []
    {
      incoming, buffer, line, written := chunks, [], [], [];
      new;
      assert [] + Concat(chunks) == Concat(chunks);
    }

    /** Reads the next chunk from the socket. */
    method Fill()
      requires buffer == [] && incoming != []
      modifies this`buffer, this`incoming
      ensures Pending() == old(Pending()) && |incoming| < |old(incoming)|
    {
      assert incoming[0] + Concat(incoming[1..]) == Concat(incoming) == Pending();
      buffer, incoming := incoming[0], incoming[1..];
    }

    /** Moves the next bytes up to and including a newline, or all there are at hand, to the line. */
    method Take(ghost all: string, n: nat) returns (used: nat, found: bool)
      requires n <= |all| && Pending() == all[n..] && OneLine(all[..n]) && buffer != []
      modifies this`buffer, this`line
      ensures 0 < used <= |old(buffer)| && buffer == old(buffer)[used..]
      ensures n + used <= |all| && Pending() == all[n + used..] && line == old(line) + all[n..n + used]
      ensures if found then n + used == Break(all) + 1 <= |all| else OneLine(all[..n + used])
    {
      BreakWithin(all, n, buffer, Concat(incoming));
      var k := Break(buffer);
      found := k < |buffer|;
      used := if found then k + 1 else k;
      Consumed(all, n, buffer, Concat(incoming), used);
      line := line + buffer[..used];
      buffer := buffer[used..];
    }

    /** Appends to `line` up to and including the next newline, or to the end of the stream. */
    method ReadLine() returns (n: nat)
      modifies this`incoming, this`buffer, this`line
      ensures n == |FirstLine(old(Pending()))|
      ensures line == old(line) + FirstLine(old(Pending()))
      ensures Pending() == old(Pending())[n..]
    {
      n := 0;
      ghost var all := Pending();
      var found := false;
      assert all[0..] == all && line + [] == line;
      while !found && (buffer != [] || incoming != [])
        invariant n <= |all| && Pending() == all[n..] && line == old(line) + all[..n]
        invariant if found then n == Break(all) + 1 else OneLine(all[..n])
        decreases |incoming|, |buffer|, !found
      {
        if buffer == [] {
          Fill();
        } else {
          var used;
          used, found := Take(all, n);
          TakeMore(old(line), all, n, n + used);
          n := n + used;
        }
      }
      if !found {
        assert |all[n..]| == 0;
        assert all[..n] == all;
      } else {
        assert all[..n] == FirstLine(all);
      }
    }

    method WriteResponse(s: Endpoint, resp: Response)
      modifies this`written
      ensures written == old(written) + (s.show(resp) + "\n")
    {
      var text := s.show(resp);
      text := text + "\n";
      written := written + text;
    }

    /** Parses the line and writes the handler's answer, or 400. */
    method AnswerLine(s: Endpoint, n: nat)
      modifies this`written
      ensures written == old(written) + ReplyLine(s, line, n)
    {
      var req := s.parse(line);
      if req.None? {
        WriteResponse(s, Error(400, BadJson));
      } else {
        var resp := s.handle(req.value, n);
        WriteResponse(s, resp);
      }
    }

    method Serve(s: Endpoint)
      modifies this
      ensures Pending() == []
      ensures written == old(written) + Output(s, old(Pending()), 0)
    {
      ghost var total := old(written) + Output(s, Pending(), 0);
      var answered := 0;
      while true
        invariant written + Output(s, Pending(), answered) == total
        decreases |Pending()|
      {
        ghost var input, before := Pending(), written;
        line := [];
        var n := ReadLine();
        if n == 0 {
          assert Output(s, [], answered) == [] && written + [] == written;
          return;
        }
        assert line == FirstLine(input);
        OutputStep(s, input, answered, before);
        AnswerLine(s, answered);
        answered := answered + 1;
      }
    }
  }

  lemma OutputStep(s: Endpoint, input: string, n: nat, before: string)
    requires input != []
    ensures before + Output(s, input, n)
         == before + ReplyLine(s, FirstLine(input), n) + Output(s, input[|FirstLine(input)|..], n + 1)
  {
    var lines := LinesOf(input);
    assert lines[1..] == LinesOf(input[|FirstLine(input)|..]);
    assert Replies(s, lines, n)[1..] == Replies(s, lines[1..], n + 1);
  }

  /** Whatever the bytes sent and whatever the handler: the server writes exactly one line for every
      line of the input, in order, malformed, blank and unterminated ones included, and splitting
      the output at newlines recovers the printed responses. */
  lemma OneResponsePerLine(s: Endpoint, input: string)
    requires forall resp :: OneLine(s.show(resp))
    ensures var lines, out := LinesOf(input), LinesOf(Output(s, input, 0));
      && |out| == |lines| == Newlines(input) + (if input != [] && input[|input| - 1] != '\n' then 1 else 0)
      && forall k :: 0 <= k < |lines| ==> out[k] == ReplyLine(s, lines[k], k)
  {
    LinesExact(input);
    var out := Replies(s, LinesOf(input), 0);
    forall k | 0 <= k < |out| ensures Terminated(out[k]) {
      assert out[k] == ReplyLine(s, LinesOf(input)[k], k);
    }
    SplitConcat(out);
  }

  // ---- the daemon's endpoint ----

  function Cryptod(version: string, wording: Cause -> string, handle: (Request, nat) -> Response): Endpoint {
    Endpoint(line => ServerReads(line), handle, resp => Print(Obj(RustEnvelope(version, wording, resp))))
  }

  lemma PrintsOneLine(version: string, wording: Cause -> string, handle: (Request, nat) -> Response)
    ensures forall resp :: OneLine(Cryptod(version, wording, handle).show(resp))
  {
    forall resp ensures OneLine(Cryptod(version, wording, handle).show(resp)) {
      PrintedOneLine(Obj(RustEnvelope(version, wording, resp)));
    }
  }

  /** Blank lines are answered too: 400. */
  lemma BlankLineAnswered(version: string, wording: Cause -> string, handle: (Request, nat) -> Response,
                          line: string, n: nat)
    requires forall i :: 0 <= i < |line| ==> IsSpace(line[i])
    ensures ReplyTo(Cryptod(version, wording, handle), line, n) == Error(400, BadJson)
  {
    BlankLine(line);
  }

  function RequestLines(requests: seq<GoRequest>): (lines: seq<string>)
    ensures |lines| == |requests|
    ensures forall k :: 0 <= k < |requests| ==> lines[k] == ToLine(Obj(GoEnvelope(requests[k])))
  {
    if requests == [] then [] else [ToLine(Obj(GoEnvelope(requests[0])))] + RequestLines(requests[1..])
  }

  lemma RequestLinesSplit(requests: seq<GoRequest>)
    ensures LinesOf(Concat(RequestLines(requests))) == RequestLines(requests)
  {
    forall i | 0 <= i < |requests| ensures Terminated(RequestLines(requests)[i]) {
      PrintedOneLine(Obj(GoEnvelope(requests[i])));
    }
    SplitConcat(RequestLines(requests));
  }

  /** A client that writes all its requests at once and then reads line by line finds, as the `k`-th
      line, the handler's answer to its `k`-th request. */
  lemma PipelinedRequestsAnswered(version: string, wording: Cause -> string, handle: (Request, nat) -> Response,
                                  requests: seq<GoRequest>, k: nat)
    requires k < |requests| && !NilWhereNeeded(requests[k])
    requires RightKind(Meant(requests[k]), handle(Meant(requests[k]), k))
    ensures var out := LinesOf(Output(Cryptod(version, wording, handle), Concat(RequestLines(requests)), 0));
      && |out| == |requests|
      && ClientReads(requests[k], out[k]) == Delivered(version, wording, handle(Meant(requests[k]), k))
  {
    RequestLinesSplit(requests);
    PrintsOneLine(version, wording, handle);
    OneResponsePerLine(Cryptod(version, wording, handle), Concat(RequestLines(requests)));
    RequestAgreement(requests[k]);
    ResponseAgreement(version, wording, requests[k], handle(Meant(requests[k]), k));
  }
}
