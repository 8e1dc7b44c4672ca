/** What one snapshot reads and reports, in terms of the files themselves. */
module Snapshots {
  import opened Bytes
  import opened Deltas
  import opened Jiffies
  import opened StatParser
  import opened Sysmon

  // ---- processor lines ----

  predicate OfProcessor(line: CpuLine) { "cpu" <= line.name }

  predicate OfAllCores(line: CpuLine) { line.name == "cpu" }

  /** The first `n` lines are processor lines, and then comes another line or the end of the file. */
  predicate SplitAt(lines: seq<CpuLine>, n: nat) {
    && n <= |lines|
    && (forall i :: 0 <= i < n ==> OfProcessor(lines[i]))
    && (n < |lines| ==> !OfProcessor(lines[n]))
  }

  /** Line `i` is the last of the first `n` that is named `cpu`. */
  predicate LastOverall(lines: seq<CpuLine>, n: nat, i: nat) {
    i < n <= |lines| && OfAllCores(lines[i]) && forall k :: i < k < n ==> !OfAllCores(lines[k])
  }

  /** The overall reading is that of the last of the first `n` lines named `cpu`, if there is one. */
  predicate OverallRead(lines: seq<CpuLine>, n: nat, overall: Option<CpuStat>) {
    && n <= |lines|
    && match overall
       case None => forall i :: 0 <= i < n ==> !OfAllCores(lines[i])
       case Some(stat) => exists i :: 0 <= i < n && LastOverall(lines, n, i) && lines[i].stat == stat
  }

  /** How many of the first `n` lines are named otherwise. */
  function Others(lines: seq<CpuLine>, n: nat): nat
    requires n <= |lines|
  {
    if n == 0 then 0 else Others(lines, n - 1) + if OfAllCores(lines[n - 1]) then 0 else 1
  }

  /** Line `i` gives the core reading whose number is that of such lines before it. */
  predicate CoreAt(lines: seq<CpuLine>, cores: seq<CpuStat>, i: nat)
    requires i < |lines|
  {
    Others(lines, i) < |cores| && cores[Others(lines, i)] == lines[i].stat
  }

  /** Of the first `n` lines, each named otherwise than `cpu` gives one core reading, in order. */
  predicate CoresRead(lines: seq<CpuLine>, n: nat, cores: seq<CpuStat>) {
    && n <= |lines|
    && |cores| == Others(lines, n)
    && (forall i :: 0 <= i < n && !OfAllCores(lines[i]) ==> CoreAt(lines, cores, i))
  }

  lemma OverallOneMore(lines: seq<CpuLine>, n: nat, overall: Option<CpuStat>)
    requires OverallRead(lines, n, overall) && n < |lines|
    ensures OverallRead(lines, n + 1, if OfAllCores(lines[n]) then Some(lines[n].stat) else overall)
  {
    if OfAllCores(lines[n]) {
      assert LastOverall(lines, n + 1, n);
    } else if overall.Some? {
      var i :| 0 <= i < n && LastOverall(lines, n, i) && lines[i].stat == overall.value;
      assert LastOverall(lines, n + 1, i);
    }
  }

  lemma CoresOneMore(lines: seq<CpuLine>, n: nat, cores: seq<CpuStat>)
    requires CoresRead(lines, n, cores) && n < |lines|
    ensures CoresRead(lines, n + 1, if OfAllCores(lines[n]) then cores else cores + [lines[n].stat])
  {
    var cores' := if OfAllCores(lines[n]) then cores else cores + [lines[n].stat];
    forall i | 0 <= i < n + 1 && !OfAllCores(lines[i]) ensures CoreAt(lines, cores', i) {
      if i < n {
        assert CoreAt(lines, cores, i);
      }
    }
  }

  lemma ScanStep(lines: seq<CpuLine>, i: nat, overall: Option<CpuStat>, cores: seq<CpuStat>)
    requires i < |lines| && OfProcessor(lines[i])
    ensures Scan(lines[i..], overall, cores)
         == if OfAllCores(lines[i]) then Scan(lines[i + 1..], Some(lines[i].stat), cores)
            else Scan(lines[i + 1..], overall, cores + [lines[i].stat])
  {
    var rest := lines[i..];
    assert rest[0] == lines[i] && rest[1..] == lines[i + 1..];
  }

  lemma ScanEnd(lines: seq<CpuLine>, n: nat, overall: Option<CpuStat>, cores: seq<CpuStat>)
    requires SplitAt(lines, n)
    ensures Scan(lines[n..], overall, cores) == (overall, cores)
  {
  }

  predicate AllRead(lines: seq<CpuLine>, n: nat, found: (Option<CpuStat>, seq<CpuStat>)) {
    OverallRead(lines, n, found.0) && CoresRead(lines, n, found.1)
  }

  lemma {:induction false} ScanReads(lines: seq<CpuLine>, n: nat, i: nat, overall: Option<CpuStat>, cores: seq<CpuStat>)
    requires SplitAt(lines, n) && i <= n && AllRead(lines, i, (overall, cores))
    ensures AllRead(lines, n, Scan(lines[i..], overall, cores))
    decreases n - i
  {
    if i == n {
      ScanEnd(lines, n, overall, cores);
    } else {
      OverallOneMore(lines, i, overall);
      CoresOneMore(lines, i, cores);
      ScanStep(lines, i, overall, cores);
      var overall' := if OfAllCores(lines[i]) then Some(lines[i].stat) else overall;
      var cores' := if OfAllCores(lines[i]) then cores else cores + [lines[i].stat];
      ScanReads(lines, n, i + 1, overall', cores');
    }
  }

  /** What is read from a file: of its processor lines up to the first line of another kind, the last named
      `cpu` and, in order, all others; what follows makes no difference. */
  lemma ReadingsExact(lines: seq<CpuLine>, n: nat)
    requires SplitAt(lines, n)
    ensures OverallRead(lines, n, Readings(Some(lines)).0) && CoresRead(lines, n, Readings(Some(lines)).1)
    ensures Readings(None) == (None, [])
  {
    assert lines[0..] == lines;
    ScanReads(lines, n, 0, None, []);
  }

  lemma {:induction false} SplitExists(lines: seq<CpuLine>) returns (n: nat)
    ensures SplitAt(lines, n)
  {
    if lines == [] || !OfProcessor(lines[0]) {
      n := 0;
    } else {
      n := SplitExists(lines[1..]);
      n := n + 1;
      assert forall i :: 1 <= i < |lines| ==> lines[i] == lines[1..][i - 1];
    }
  }

  lemma {:induction false} CoresByPosition(cores: seq<CpuStat>, m: map<nat, CpuStat>, first: nat, i: nat)
    ensures var kept, events := Store(m, CoreEvents(cores, first)), CoreEvents(cores, first);
      && Lookup(kept, i) == (if first <= i < first + |cores| then Some(cores[i - first]) else Lookup(m, i))
      && (first <= i < first + |cores| ==> Reports(Pct, m, events)[i - first] == Pct(Lookup(m, i), i, cores[i - first]))
    decreases |cores|
  {
    if cores != [] {
      var m', events := m[first := cores[0]], CoreEvents(cores, first);
      assert events[1..] == CoreEvents(cores[1..], first + 1);
      CoresByPosition(cores[1..], m', first + 1, i);
    }
  }

  /** Each core is compared with the last reading of the core at the same position and with no other, and its
      own is kept there; positions the file does not have keep what they had. */
  lemma CoresExact(m: Kept, src: Sources, i: nat)
    requires Observe(m, src).1.Ok?
    ensures var ((m', r), cores) := (Observe(m, src), Readings(src.cpu).1);
      && |r.value.cpu.perCore| == |cores|
      && Lookup(m'.cores, i) == (if i < |cores| then Some(cores[i]) else Lookup(m.cores, i))
      && (i < |cores| ==> r.value.cpu.perCore[i] == if i in m.cores then PctBusy(m.cores[i], cores[i]) else 0.0)
  {
    CoresByPosition(Readings(src.cpu).1, m.cores, 0, i);
  }

  // ---- interfaces ----

  function IfPresent<V>(name: string, found: map<string, V>): seq<string> {
    if name in found then [name] else []
  }

  /** One sample for each name, in order, each with the totals the file has for it. */
  predicate Sampled(stats: map<string, NetCounters>, names: seq<string>, events: seq<(string, NetSample)>) {
    && |events| == |names|
    && forall k :: 0 <= k < |names| ==>
         && names[k] in stats && events[k].0 == names[k]
         && events[k].1.rxBytes == stats[names[k]].rxBytes && events[k].1.txBytes == stats[names[k]].txBytes
  }

  lemma SampledFirst(at: real, stats: map<string, NetCounters>, name: string, rest: seq<string>, names: seq<string>)
    requires Sampled(stats, names, NetEvents(at, stats, rest))
    ensures Sampled(stats, IfPresent(name, stats) + names, NetEvents(at, stats, [name] + rest))
  {
    assert ([name] + rest)[1..] == rest;
  }

  lemma EventsExact(at: real, stats: map<string, NetCounters>)
    ensures var names := IfPresent("br0", stats) + (IfPresent("gbe0", stats) + IfPresent("gbe1", stats));
      Sampled(stats, names, NetEvents(at, stats, INTERFACES))
  {
    var one, two := ["gbe1"], ["gbe0", "gbe1"];
    SampledFirst(at, stats, "gbe1", [], []);
    assert IfPresent("gbe1", stats) + [] == IfPresent("gbe1", stats) && ["gbe1"] + [] == one;
    SampledFirst(at, stats, "gbe0", one, IfPresent("gbe1", stats));
    assert ["gbe0"] + one == two;
    SampledFirst(at, stats, "br0", two, IfPresent("gbe0", stats) + IfPresent("gbe1", stats));
    assert ["br0"] + two == INTERFACES;
  }

  /** One report for each name, in order, each with the totals the file has for it. */
  predicate Reported(stats: map<string, NetCounters>, names: seq<string>, infos: seq<NetInfo>) {
    && |infos| == |names|
    && forall k :: 0 <= k < |names| ==>
         && names[k] in stats && infos[k].name == names[k]
         && infos[k].rxBytes == stats[names[k]].rxBytes && infos[k].txBytes == stats[names[k]].txBytes
  }

  lemma {:induction false} SampledReported(m: map<string, NetSample>, stats: map<string, NetCounters>,
                                           names: seq<string>, events: seq<(string, NetSample)>)
    requires Sampled(stats, names, events)
    ensures Reported(stats, names, Reports(Interface, m, events))
    decreases |events|
  {
    if events != [] {
      SampledReported(m[events[0].0 := events[0].1], stats, names[1..], events[1..]);
    }
  }

  /** A successful snapshot reports those of `br0`, `gbe0` and `gbe1` that the file has, in this order and no
      others, each with the file's own totals. */
  lemma InterfacesExact(m: Kept, src: Sources, r: Report)
    requires Observe(m, src).1 == Ok(r)
    ensures src.net.Some?
    ensures var net := src.net.value;
      Reported(net, IfPresent("br0", net) + (IfPresent("gbe0", net) + IfPresent("gbe1", net)), r.interfaces)
  {
    var net := src.net.value;
    EventsExact(src.at, net);
    SampledReported(m.net, net, IfPresent("br0", net) + (IfPresent("gbe0", net) + IfPresent("gbe1", net)),
                    NetEvents(src.at, net, INTERFACES));
  }

  /** A rate is eight times the bytes since the last sample over the time since then; it is zero without a
      last sample, after 50 milliseconds or less, and when the counter went back. */
  lemma BitRateExact(prev: Sample, cur: Sample)
    ensures BitRate(None, cur) == 0.0
    ensures var (dt, bits) := (cur.at - prev.at, 8 * (cur.count - prev.count));
      if dt <= 0.05 || bits < 0 then BitRate(Some(prev), cur) == 0.0 else BitRate(Some(prev), cur) * dt == bits as real
  {
  }

  // ---- processes ----

  /** What is kept for a key is the one sample observed for it or, if there is none, what was kept before. */
  lemma {:induction false} StoreOnly<K, S>(m: map<K, S>, events: seq<(K, S)>, key: K, s: S)
    requires forall k :: 0 <= k < |events| && events[k].0 == key ==> events[k].1 == s
    ensures Lookup(Store(m, events), key)
         == if exists k :: 0 <= k < |events| && events[k].0 == key then Some(s) else Lookup(m, key)
    decreases |events|
  {
    if events != [] {
      var rest := events[1..];
      assert forall k :: 0 <= k < |rest| ==> rest[k] == events[k + 1];
      StoreOnly(m[events[0].0 := events[0].1], rest, key, s);
      if k :| 0 <= k < |rest| && rest[k].0 == key {
        assert events[k + 1].0 == key;
      }
    }
  }

  /** A process of this name was found and its `stat` line was read. */
  predicate Watched(procs: map<string, Found>, name: string) {
    name in procs && procs[name].stat.Some?
  }

  /** The sum of its user and system time, in 64 bits. */
  function SampleOf(at: real, found: Found): Sample
    requires found.stat.Some?
  {
    Sample(at, (found.stat.value.utime + found.stat.value.stime) % 0x1_0000_0000_0000_0000)
  }

  function IfWatched(at: real, procs: map<string, Found>, name: string): (events: seq<(nat, Sample)>)
    ensures |events| <= 1
  {
    if Watched(procs, name) then [(procs[name].pid, SampleOf(at, procs[name]))] else []
  }

  lemma ProcEventsExact(at: real, procs: map<string, Found>)
    ensures ProcEvents(at, procs, PROCESSES) == IfWatched(at, procs, "acm-cryptod") + IfWatched(at, procs, "acm-agent")
  {
    var names: seq<string> := ["acm-agent"];
    assert PROCESSES[1..] == names && names[1..] == [];
    assert ProcEvents(at, procs, names) == IfWatched(at, procs, "acm-agent") + ProcEvents(at, procs, []);
    assert ProcEvents(at, procs, []) == [];
  }

  /** Each process named `acm-cryptod` or `acm-agent` whose `stat` line was read is kept with the sum of its
      user and system time, in 64 bits, under its process id; other process ids keep what they had. */
  lemma ProcessesKept(m: Kept, src: Sources, name: string, pid: nat)
    requires Observe(m, src).1.Ok? && (name == "acm-cryptod" || name == "acm-agent")
    requires forall a, b :: a in src.procs && b in src.procs && src.procs[a].pid == src.procs[b].pid ==> a == b
    ensures Watched(src.procs, name) && pid == src.procs[name].pid ==>
      Lookup(Observe(m, src).0.procs, pid) == Some(SampleOf(src.at, src.procs[name]))
    ensures (forall other :: Watched(src.procs, other) ==> src.procs[other].pid != pid) ==>
      Lookup(Observe(m, src).0.procs, pid) == Lookup(m.procs, pid)
  {
    var first, second := IfWatched(src.at, src.procs, "acm-cryptod"), IfWatched(src.at, src.procs, "acm-agent");
    var events: seq<(nat, Sample)> := first + second;
    ProcEventsExact(src.at, src.procs);
    if Watched(src.procs, name) && pid == src.procs[name].pid {
      assert events[if name == "acm-cryptod" then 0 else |first|].0 == pid;
      StoreOnly(m.procs, events, pid, SampleOf(src.at, src.procs[name]));
    }
    if forall other :: Watched(src.procs, other) ==> src.procs[other].pid != pid {
      StoreOnly(m.procs, events, pid, Sample(0.0, 0));
    }
  }

  /** A process's share is the jiffies it used over those that passed, in percent, under the same conditions. */
  lemma CpuPctExact(prev: Sample, cur: Sample)
    ensures CpuPct(None, cur) == 0.0
    ensures var (dt, used) := (cur.at - prev.at, cur.count - prev.count);
      if dt <= 0.05 || used < 0 then CpuPct(Some(prev), cur) == 0.0
      else CpuPct(Some(prev), cur) / 100.0 * (dt * 100.0) == used as real
  {
  }

  // ---- verdicts ----

  /** Which snapshots fail, and at which stage. */
  lemma VerdictExact(m: Kept, src: Sources)
    ensures var r := Observe(m, src).1;
      && (r == Err(CpuFailed) <==> Readings(src.cpu).0.None?)
      && (r == Err(MemoryFailed) <==> Readings(src.cpu).0.Some? && !src.memory)
      && (r == Err(NetFailed) <==> Readings(src.cpu).0.Some? && src.memory && src.net.None?)
      && (r.Ok? <==> Readings(src.cpu).0.Some? && src.memory && src.net.Some?)
  {
  }

  lemma {:induction false} FreshCores(cores: seq<CpuStat>, m: map<nat, CpuStat>, first: nat)
    requires forall i :: first <= i ==> i !in m
    ensures forall k :: 0 <= k < |cores| ==> Reports(Pct, m, CoreEvents(cores, first))[k] == 0.0
    decreases |cores|
  {
    if cores != [] {
      FreshCores(cores[1..], m[first := cores[0]], first + 1);
    }
  }

  /** The first snapshot has no baseline: its busy percentages are zero, overall and of every core. */
  lemma FirstBusyZero(m: Kept, src: Sources, r: Report)
    requires m.cpu == None && m.cores == map[] && Observe(m, src).1 == Ok(r)
    ensures r.cpu.busyPct == 0.0 && forall k :: 0 <= k < |r.cpu.perCore| ==> r.cpu.perCore[k] == 0.0
  {
    FreshCores(Readings(src.cpu).1, map[], 0);
  }
}
