/** `/proc/[pid]/stat`: the process name stands in parentheses and may itself contain blanks,
    parentheses and anything else, so the line is split after the last `)`. */
module StatParser {
  import opened Bytes
  import opened Whitespace
  import Decimal

  const MAX_UINT64 := WRAP - 1
  const MAX_INT64 := 0x7FFF_FFFF_FFFF_FFFF

  datatype ProcStat = ProcStat(state: string, utime: u64, stime: u64, threads: int, starttime: u64)

  function LastIndex(s: string, ch: char): (r: Option<nat>)
    ensures r.Some? ==> r.value < |s| && s[r.value] == ch && forall i :: r.value < i < |s| ==> s[i] != ch
    ensures r.None? ==> ch !in s
  {
    if s == [] then None
    else if s[|s| - 1] == ch then Some(|s| - 1)
    else LastIndex(s[..|s| - 1], ch)
  }

  predicate Digits(s: string) {
    s != [] && forall i :: 0 <= i < |s| ==> Decimal.IsDigit(s[i])
  }

  /** `ParseUint` with its error thrown away: zero for what is no number, the largest for what is too large. */
  function ParseUint(s: string): u64 {
    if !Digits(s) then 0
    else if Decimal.Read(s, 0).0 > MAX_UINT64 then MAX_UINT64
    else Decimal.Read(s, 0).0
  }

  /** `Atoi` with its error thrown away. */
  function ParseInt(s: string): int {
    var negative := s != [] && s[0] == '-';
    var digits := if s != [] && (s[0] == '-' || s[0] == '+') then s[1..] else s;
    if !Digits(digits) then 0
    else
      var n: int := Decimal.Read(digits, 0).0;
      if negative then if n > MAX_INT64 then -MAX_INT64 - 1 else -n
      else if n > MAX_INT64 then MAX_INT64 else n
  }

  function Parse(line: string): Option<ProcStat> {
    match LastIndex(line, ')')
    case None => None
    case Some(close) =>
      var parts := Fields(TrimRight(TrimLeft(line[close + 1..])));
      if |parts| < 20 then None
      else Some(ProcStat(parts[0], ParseUint(parts[11]), ParseUint(parts[12]), ParseInt(parts[17]),
                         ParseUint(parts[19])))
  }

  // ---- what the kernel prints ----

  /** A field after the process name. */
  predicate IsField(f: string) {
    IsToken(f) && ')' !in f
  }

  function Render(pid: nat, comm: string, fields: seq<string>): string {
    Decimal.Print(pid) + " (" + comm + ")" + (" " + Join(fields) + "\n")
  }

  function PrintInt(n: int): string {
    if n < 0 then "-" + Decimal.Print(-n) else Decimal.Print(n)
  }

  lemma {:induction false} JoinWithout(fields: seq<string>, ch: char)
    requires ch != ' ' && forall k :: 0 <= k < |fields| ==> ch !in fields[k]
    ensures ch !in Join(fields)
  {
    if |fields| > 1 {
      JoinWithout(fields[1..], ch);
    }
  }

  lemma {:induction false} LastIs(before: string, after: string, ch: char)
    requires ch !in after
    ensures LastIndex(before + [ch] + after, ch) == Some(|before|)
    ensures (before + [ch] + after)[|before| + 1..] == after
  {
    if after == [] {
      assert before + [ch] + after == before + [ch];
    } else {
      var s, n := before + [ch] + after, |after| - 1;
      LastIs(before, after[..n], ch);
      assert s[..|s| - 1] == before + [ch] + after[..n];
      assert s[|s| - 1] == after[n];
    }
  }

  /** The fields are found whatever the process is called; with fewer than twenty there is no result. */
  lemma ParseRendered(pid: nat, comm: string, fields: seq<string>)
    requires fields != [] && forall k :: 0 <= k < |fields| ==> IsField(fields[k])
    ensures Parse(Render(pid, comm, fields))
         == if |fields| < 20 then None
            else Some(ProcStat(fields[0], ParseUint(fields[11]), ParseUint(fields[12]), ParseInt(fields[17]),
                               ParseUint(fields[19])))
  {
    var after := " " + Join(fields) + "\n";
    JoinWithout(fields, ')');
    LastIs(Decimal.Print(pid) + " (" + comm, after, ')');
    JoinEnds(fields);
    TrimBlanks(Join(fields));
    SplitJoin(fields);
  }

  lemma UintRoundTrip(n: u64)
    ensures ParseUint(Decimal.Print(n)) == n && IsField(Decimal.Print(n))
  {
    var m: nat := n;
    assert Decimal.Print(m) + [] == Decimal.Print(m);
    Decimal.ReadPrint(m, []);
  }

  lemma IntRoundTrip(n: int)
    requires -MAX_INT64 - 1 <= n <= MAX_INT64
    ensures ParseInt(PrintInt(n)) == n && IsField(PrintInt(n))
  {
    var m: nat := if n < 0 then -n else n;
    assert Decimal.Print(m) + [] == Decimal.Print(m);
    Decimal.ReadPrint(m, []);
    if n < 0 {
      assert PrintInt(n)[1..] == Decimal.Print(m);
    }
  }

  lemma DigitsRead(n: nat)
    ensures Digits(Decimal.Print(n)) && Decimal.Read(Decimal.Print(n), 0).0 == n
  {
    assert Decimal.Print(n) + [] == Decimal.Print(n);
    Decimal.ReadPrint(n, []);
  }

  /** Numbers that do not fit read as the nearest that does, and what is not a number as zero. */
  lemma NumbersExact(n: int, s: string)
    requires n >= 0
    ensures ParseUint(Decimal.Print(n)) == if n < 0x1_0000_0000_0000_0000 then n else 0xFFFF_FFFF_FFFF_FFFF
    ensures ParseInt(Decimal.Print(n)) == ParseInt("+" + Decimal.Print(n))
         == if n < 0x8000_0000_0000_0000 then n else 0x7FFF_FFFF_FFFF_FFFF
    ensures ParseInt("-" + Decimal.Print(n)) == if n < 0x8000_0000_0000_0000 then -n else -0x8000_0000_0000_0000
    ensures s == "" || (exists i :: 0 <= i < |s| && !('0' <= s[i] <= '9')) ==> ParseUint(s) == 0
    ensures s == "" || (exists i :: 1 <= i < |s| && !('0' <= s[i] <= '9')) ==> ParseInt(s) == 0
  {
    DigitsRead(n);
    assert ("-" + Decimal.Print(n))[1..] == Decimal.Print(n) && ("+" + Decimal.Print(n))[1..] == Decimal.Print(n);
  }

  /** A line printed for a process with these values. */
  predicate Shows(fields: seq<string>, st: ProcStat) {
    && |fields| >= 20 && (forall k :: 0 <= k < |fields| ==> IsField(fields[k]))
    && fields[0] == st.state && fields[11] == Decimal.Print(st.utime) && fields[12] == Decimal.Print(st.stime)
    && fields[17] == PrintInt(st.threads) && fields[19] == Decimal.Print(st.starttime)
  }

  /** State, times, thread count and start time are recovered exactly, for every process name there can
      be and whatever the other fields are. */
  lemma RecoversStat(pid: nat, comm: string, fields: seq<string>, st: ProcStat)
    requires Shows(fields, st) && -MAX_INT64 - 1 <= st.threads <= MAX_INT64
    ensures Parse(Render(pid, comm, fields)) == Some(st)
  {
    ParseRendered(pid, comm, fields);
    UintRoundTrip(st.utime);
    UintRoundTrip(st.stime);
    IntRoundTrip(st.threads);
    UintRoundTrip(st.starttime);
  }
}
