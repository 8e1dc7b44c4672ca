/** Streams of lines. A line ends with its newline; the last one may lack it. */
module Lines {

  predicate OneLine(s: string) {
    forall i :: 0 <= i < |s| ==> s[i] != '\n'
  }

  predicate Terminated(line: string) {
    line != [] && line[|line| - 1] == '\n' && forall i :: 0 <= i < |line| - 1 ==> line[i] != '\n'
  }

  /** The position of the first newline, or the length if there is none. */
  function Break(s: string): (n: nat)
    ensures n <= |s| && (n < |s| ==> s[n] == '\n')
    ensures forall i :: 0 <= i < n ==> s[i] != '\n'
  {
    if s == [] || s[0] == '\n' then 0 else 1 + Break(s[1..])
  }

  function FirstLine(s: string): (line: string)
    ensures line <= s && (s != [] ==> line != [])
    ensures Terminated(line) || (line == s && OneLine(s))
  {
    if Break(s) < |s| then s[..Break(s) + 1] else s
  }

  function LinesOf(s: string): seq<string>
    decreases |s|
  {
    if s == [] then [] else [FirstLine(s)] + LinesOf(s[|FirstLine(s)|..])
  }

  function Concat(parts: seq<string>): string {
    if parts == [] then [] else parts[0] + Concat(parts[1..])
  }

  function Newlines(s: string): nat {
    if s == [] then 0 else (if s[0] == '\n' then 1 else 0) + Newlines(s[1..])
  }

  lemma {:induction false} NewlinesConcat(a: string, b: string)
    ensures Newlines(a + b) == Newlines(a) + Newlines(b)
  {
    if a == [] {
      assert a + b == b;
    } else {
      assert (a + b)[1..] == a[1..] + b;
      NewlinesConcat(a[1..], b);
    }
  }

  lemma {:induction false} NewlinesOfLine(line: string)
    requires OneLine(line) || Terminated(line)
    ensures Newlines(line) == if Terminated(line) then 1 else 0
  {
    if |line| > 1 {
      NewlinesOfLine(line[1..]);
    }
  }

  /** The lines of a stream make up the stream; there is one for every newline, and one more for an
      unterminated rest. */
  lemma {:induction false} LinesExact(s: string)
    ensures Concat(LinesOf(s)) == s
    ensures |LinesOf(s)| == Newlines(s) + if s != [] && s[|s| - 1] != '\n' then 1 else 0
    ensures forall k :: 0 <= k < |LinesOf(s)| - 1 ==> Terminated(LinesOf(s)[k])
    decreases |s|
  {
    if s != [] {
      var line, rest := FirstLine(s), s[|FirstLine(s)|..];
      assert s == line + rest;
      LinesExact(rest);
      NewlinesOfLine(line);
      NewlinesConcat(line, rest);
    }
  }

  lemma FirstOfTerminated(line: string, rest: string)
    requires Terminated(line)
    ensures FirstLine(line + rest) == line
  {
    var s := line + rest;
    assert forall i :: 0 <= i < |line| ==> s[i] == line[i];
    assert Break(s) == |line| - 1;
  }

  /** Splitting a concatenation of terminated lines gives those lines back. */
  lemma {:induction false} SplitConcat(lines: seq<string>)
    requires forall k :: 0 <= k < |lines| ==> Terminated(lines[k])
    ensures LinesOf(Concat(lines)) == lines
  {
    if lines != [] {
      FirstOfTerminated(lines[0], Concat(lines[1..]));
      SplitConcat(lines[1..]);
      assert Concat(lines)[|lines[0]|..] == Concat(lines[1..]);
      assert lines == [lines[0]] + lines[1..];
    }
  }

  lemma BreakIs(s: string, n: nat)
    requires n < |s| && s[n] == '\n' && forall i :: 0 <= i < n ==> s[i] != '\n'
    ensures Break(s) == n
  {
  }

  /** A newline found in the bytes at hand is the first one of what is left, and none found, none passed. */
  lemma BreakWithin(all: string, n: nat, buffer: string, later: string)
    requires n <= |all| && all[n..] == buffer + later && OneLine(all[..n])
    ensures Break(buffer) < |buffer| ==> Break(all) == n + Break(buffer)
    ensures Break(buffer) == |buffer| ==> n + |buffer| <= |all| && OneLine(all[..n + |buffer|])
  {
    var k := Break(buffer);
    var head := all[..n];
    assert all == head + (buffer + later);
    assert forall i :: 0 <= i < n ==> all[i] == head[i];
    assert forall i :: 0 <= i < |buffer| ==> all[n + i] == buffer[i];
    if k < |buffer| {
      forall i | 0 <= i < n + k ensures all[i] != '\n' {
        if i >= n {
          assert all[n + (i - n)] == buffer[i - n];
        }
      }
      BreakIs(all, n + k);
    } else {
      forall i | 0 <= i < n + |buffer| ensures all[i] != '\n' {
        if i >= n {
          assert all[n + (i - n)] == buffer[i - n];
        }
      }
    }
  }

  /** Using up part of the bytes at hand. */
  lemma Consumed(all: string, n: nat, buffer: string, later: string, used: nat)
    requires n <= |all| && all[n..] == buffer + later && used <= |buffer|
    ensures n + used <= |all| && all[n..n + used] == buffer[..used] && all[n + used..] == buffer[used..] + later
  {
    assert |all[n..]| == |buffer| + |later|;
    assert all[n..n + used] == all[n..][..used];
    assert all[n + used..] == all[n..][used..];
  }
}
