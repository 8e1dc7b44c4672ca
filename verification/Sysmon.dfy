/** The agent's system monitor: a reader that keeps the last readings and reports what changed since. */
module Sysmon {
  import opened Bytes
  import opened Deltas
  import opened Jiffies
  import opened StatParser

  // ---- what is read ----

  /** One line of `/proc/stat`: its first field and its numbers. */
  datatype CpuLine = CpuLine(name: string, stat: CpuStat)

  datatype NetCounters = NetCounters(rxBytes: u64, txBytes: u64)

  /** A watched process that was found, with its `stat` line if that could be parsed. */
  datatype Found = Found(pid: nat, stat: Option<ProcStat>)

  /** All that one snapshot reads, at time `at` in seconds; `None` and `false` are failures. */
  datatype Sources = Sources(
    at: real, cpu: Option<seq<CpuLine>>, memory: bool, net: Option<map<string, NetCounters>>, procs: map<string, Found>)

  const INTERFACES: seq<string> := ["br0", "gbe0", "gbe1"]
  const PROCESSES: seq<string> := ["acm-cryptod", "acm-agent"]
  const HZ := 100.0

  // ---- what is kept and reported ----

  datatype NetSample = NetSample(at: real, rxBytes: u64, txBytes: u64)

  datatype Kept = Kept(
    cpu: Option<CpuStat>, cores: map<nat, CpuStat>, net: map<string, NetSample>, procs: map<nat, Sample>)

  datatype CpuInfo = CpuInfo(busyPct: real, perCore: seq<real>)

  datatype NetInfo = NetInfo(name: string, rxBytes: u64, txBytes: u64, rxBps: real, txBps: real)

  datatype ProcInfo = ProcInfo(pid: nat, cpuPct: real)

  datatype Report = Report(cpu: CpuInfo, interfaces: seq<NetInfo>, processes: seq<ProcInfo>)

  datatype Failure = CpuFailed | MemoryFailed | NetFailed

  // ---- processor ----

  /** The lines up to the first whose name does not begin with `cpu`: the last overall line, and the rest. */
  function Scan(lines: seq<CpuLine>, overall: Option<CpuStat>, cores: seq<CpuStat>): (Option<CpuStat>, seq<CpuStat>) {
    if lines == [] || !("cpu" <= lines[0].name) then (overall, cores)
    else if lines[0].name == "cpu" then Scan(lines[1..], Some(lines[0].stat), cores)
    else Scan(lines[1..], overall, cores + [lines[0].stat])
  }

  function Readings(file: Option<seq<CpuLine>>): (Option<CpuStat>, seq<CpuStat>) {
    match file case Some(lines) => Scan(lines, None, []) case None => (None, [])
  }

  function CoreEvents(cores: seq<CpuStat>, first: nat): (events: seq<(nat, CpuStat)>)
    ensures |events| == |cores|
  {
    if cores == [] then [] else [(first, cores[0])] + CoreEvents(cores[1..], first + 1)
  }

  function Pct(prev: Option<CpuStat>, core: nat, cur: CpuStat): real {
    match prev case Some(p) => PctBusy(p, cur) case None => 0.0
  }

  // ---- interfaces ----

  function NetEvents(at: real, stats: map<string, NetCounters>, names: seq<string>): seq<(string, NetSample)> {
    if names == [] then []
    else
      (if names[0] in stats then [(names[0], NetSample(at, stats[names[0]].rxBytes, stats[names[0]].txBytes))] else [])
      + NetEvents(at, stats, names[1..])
  }

  function RxOf(s: NetSample): Sample { Sample(s.at, s.rxBytes) }
  function TxOf(s: NetSample): Sample { Sample(s.at, s.txBytes) }

  function BitRate(prev: Option<Sample>, cur: Sample): real {
    if prev.Some? && cur.at - prev.value.at > 0.05 && cur.count >= prev.value.count
    then (cur.count - prev.value.count) as real * 8.0 / (cur.at - prev.value.at)
    else 0.0
  }

  function Interface(prev: Option<NetSample>, name: string, cur: NetSample): NetInfo {
    NetInfo(name, cur.rxBytes, cur.txBytes, BitRate(Seen(RxOf, prev), RxOf(cur)), BitRate(Seen(TxOf, prev), TxOf(cur)))
  }

  // ---- processes ----

  /** `utime + stime`, in 64 bits. */
  function Ticks(st: ProcStat): u64 {
    (st.utime + st.stime) % WRAP
  }

  function ProcEvents(at: real, procs: map<string, Found>, names: seq<string>): seq<(nat, Sample)> {
    if names == [] then []
    else
      (if names[0] in procs && procs[names[0]].stat.Some?
       then [(procs[names[0]].pid, Sample(at, Ticks(procs[names[0]].stat.value)))] else [])
      + ProcEvents(at, procs, names[1..])
  }

  function CpuPct(prev: Option<Sample>, cur: Sample): real {
    if prev.Some? && cur.at - prev.value.at > 0.05 && cur.count >= prev.value.count
    then (cur.count - prev.value.count) as real * 100.0 / ((cur.at - prev.value.at) * HZ)
    else 0.0
  }

  function Process(prev: Option<Sample>, pid: nat, cur: Sample): ProcInfo {
    ProcInfo(pid, CpuPct(prev, cur))
  }

  // ---- one snapshot ----

  function Observe(m: Kept, src: Sources): (Kept, Result<Report, Failure>) {
    var (overall, cores) := Readings(src.cpu);
    if overall.None? then (m, Err(CpuFailed))
    else
      var cpu := CpuInfo(Pct(m.cpu, 0, overall.value), Reports(Pct, m.cores, CoreEvents(cores, 0)));
      var m' := m.(cpu := overall, cores := Store(m.cores, CoreEvents(cores, 0)));
      if !src.memory then (m', Err(MemoryFailed))
      else if src.net.None? then (m', Err(NetFailed))
      else
        var net := NetEvents(src.at, src.net.value, INTERFACES);
        var procs := ProcEvents(src.at, src.procs, PROCESSES);
        (m'.(net := Store(m.net, net), procs := Store(m.procs, procs)),
         Ok(Report(cpu, Reports(Interface, m.net, net), Reports(Process, m.procs, procs))))
  }

  class Reader {
    var prevCPU: Option<CpuStat>
    var prevCPUs: map<nat, CpuStat>
    var prevNet: map<string, NetSample>
    var prevProc: map<nat, Sample>

    function View(): Kept
      reads this
    {
      Kept(prevCPU, prevCPUs, prevNet, prevProc)
    }

    constructor ()
      ensures View() == Kept(None, map[], map[], map[])
    {
      prevCPU, prevCPUs, prevNet, prevProc := None, map[], map[], map[];
    }

    static method ScanCPU(lines: seq<CpuLine>) returns (overall: Option<CpuStat>, cores: seq<CpuStat>)
      ensures (overall, cores) == Scan(lines, None, [])
    {
      overall, cores := None, [];
      var i := 0;
      while i < |lines|
        invariant 0 <= i <= |lines| && Scan(lines[i..], overall, cores) == Scan(lines, None, [])
      {
        if !("cpu" <= lines[i].name) { break; }
        if lines[i].name == "cpu" {
          overall := Some(lines[i].stat);
        } else {
          cores := cores + [lines[i].stat];
        }
        i := i + 1;
      }
    }

    method ReadCores(cores: seq<CpuStat>) returns (perCore: seq<real>)
      modifies this`prevCPUs
      ensures prevCPUs == Store(old(prevCPUs), CoreEvents(cores, 0))
      ensures perCore == Reports(Pct, old(prevCPUs), CoreEvents(cores, 0))
    {
      perCore := [];
      var i := 0;
      while i < |cores|
        invariant 0 <= i <= |cores|
        invariant Store(prevCPUs, CoreEvents(cores[i..], i)) == Store(old(prevCPUs), CoreEvents(cores, 0))
        invariant perCore + Reports(Pct, prevCPUs, CoreEvents(cores[i..], i))
               == Reports(Pct, old(prevCPUs), CoreEvents(cores, 0))
      {
        var pct := 0.0;
        if i in prevCPUs {
          pct := PctBusy(prevCPUs[i], cores[i]);
        }
        ReportsStep(Pct, prevCPUs, CoreEvents(cores[i..], i), perCore);
        assert CoreEvents(cores[i..], i)[1..] == CoreEvents(cores[i + 1..], i + 1);
        perCore := perCore + [pct];
        prevCPUs := prevCPUs[i := cores[i]];
        i := i + 1;
      }
    }

    method ReadCPU(file: Option<seq<CpuLine>>) returns (info: Option<CpuInfo>)
      modifies this`prevCPU, this`prevCPUs
      ensures var (overall, cores) := Readings(file);
        if overall.None? then info == None && View() == old(View())
        else
          && info == Some(CpuInfo(Pct(old(prevCPU), 0, overall.value),
                                  Reports(Pct, old(prevCPUs), CoreEvents(cores, 0))))
          && View() == old(View()).(cpu := overall, cores := Store(old(prevCPUs), CoreEvents(cores, 0)))
    {
      if file.None? { return None; }
      var overall, cores := ScanCPU(file.value);
      if overall.None? { return None; }
      var busy := 0.0;
      if prevCPU.Some? {
        busy := PctBusy(prevCPU.value, overall.value);
      }
      prevCPU := overall;
      var perCore := ReadCores(cores);
      info := Some(CpuInfo(busy, perCore));
    }

    method ReadOneNet(at: real, name: string, st: NetCounters) returns (info: NetInfo)
      modifies this`prevNet
      ensures var cur := NetSample(at, st.rxBytes, st.txBytes);
        info == Interface(Lookup(old(prevNet), name), name, cur) && prevNet == old(prevNet)[name := cur]
    {
      info := NetInfo(name, st.rxBytes, st.txBytes, 0.0, 0.0);
      if name in prevNet {
        var prev := prevNet[name];
        var dt := at - prev.at;
        if dt > 0.05 {
          if st.rxBytes >= prev.rxBytes {
            info := info.(rxBps := (st.rxBytes - prev.rxBytes) as real * 8.0 / dt);
          }
          if st.txBytes >= prev.txBytes {
            info := info.(txBps := (st.txBytes - prev.txBytes) as real * 8.0 / dt);
          }
        }
      }
      prevNet := prevNet[name := NetSample(at, st.rxBytes, st.txBytes)];
    }

    method ReadNet(at: real, stats: map<string, NetCounters>, names: seq<string>) returns (infos: seq<NetInfo>)
      modifies this`prevNet
      ensures prevNet == Store(old(prevNet), NetEvents(at, stats, names))
      ensures infos == Reports(Interface, old(prevNet), NetEvents(at, stats, names))
    {
      infos := [];
      var i := 0;
      ghost var all := NetEvents(at, stats, names);
      while i < |names|
        invariant 0 <= i <= |names|
        invariant Store(prevNet, NetEvents(at, stats, names[i..])) == Store(old(prevNet), all)
        invariant infos + Reports(Interface, prevNet, NetEvents(at, stats, names[i..]))
               == Reports(Interface, old(prevNet), all)
      {
        var name := names[i];
        ghost var rest := NetEvents(at, stats, names[i..]);
        NetEventsStep(at, stats, names, i);
        if name in stats {
          ReportsStep(Interface, prevNet, rest, infos);
          var info := ReadOneNet(at, name, stats[name]);
          infos := infos + [info];
        }
        i := i + 1;
      }
    }

    method ReadOneProcess(at: real, pid: nat, st: ProcStat) returns (info: ProcInfo)
      modifies this`prevProc
      ensures var cur := Sample(at, Ticks(st));
        info == Process(Lookup(old(prevProc), pid), pid, cur) && prevProc == old(prevProc)[pid := cur]
    {
      info := ProcInfo(pid, 0.0);
      var cur := (st.utime + st.stime) % WRAP;
      if pid in prevProc && prevProc[pid].at < at {
        var dt := at - prevProc[pid].at;
        if dt > 0.05 && cur >= prevProc[pid].count {
          var dj := (cur - prevProc[pid].count) as real;
          info := info.(cpuPct := dj * 100.0 / (dt * HZ));
          NotNegative(dj, dt);
          if info.cpuPct < 0.0 {
            info := info.(cpuPct := 0.0);
          }
        }
      }
      prevProc := prevProc[pid := Sample(at, cur)];
    }

    method ReadProcesses(at: real, procs: map<string, Found>, names: seq<string>) returns (infos: seq<ProcInfo>)
      modifies this`prevProc
      ensures prevProc == Store(old(prevProc), ProcEvents(at, procs, names))
      ensures infos == Reports(Process, old(prevProc), ProcEvents(at, procs, names))
    {
      infos := [];
      var i := 0;
      ghost var all := ProcEvents(at, procs, names);
      while i < |names|
        invariant 0 <= i <= |names|
        invariant Store(prevProc, ProcEvents(at, procs, names[i..])) == Store(old(prevProc), all)
        invariant infos + Reports(Process, prevProc, ProcEvents(at, procs, names[i..]))
               == Reports(Process, old(prevProc), all)
      {
        var name := names[i];
        ghost var rest := ProcEvents(at, procs, names[i..]);
        ProcEventsStep(at, procs, names, i);
        if name in procs && procs[name].stat.Some? {
          ReportsStep(Process, prevProc, rest, infos);
          var info := ReadOneProcess(at, procs[name].pid, procs[name].stat.value);
          infos := infos + [info];
        }
        i := i + 1;
      }
    }

    method Snapshot(src: Sources) returns (r: Result<Report, Failure>)
      modifies this
      ensures (View(), r) == Observe(old(View()), src)
    {
      var cpu := ReadCPU(src.cpu);
      if cpu.None? { return Err(CpuFailed); }
      if !src.memory { return Err(MemoryFailed); }
      if src.net.None? { return Err(NetFailed); }
      var interfaces := ReadNet(src.at, src.net.value, INTERFACES);
      var processes := ReadProcesses(src.at, src.procs, PROCESSES);
      return Ok(Report(cpu.value, interfaces, processes));
    }
  }

  lemma NotNegative(dj: real, dt: real)
    requires dj >= 0.0 && dt > 0.0
    ensures dj * 100.0 / (dt * HZ) >= 0.0
  {
  }

  lemma NetEventsStep(at: real, stats: map<string, NetCounters>, names: seq<string>, i: nat)
    requires i < |names|
    ensures var (name, events) := (names[i], NetEvents(at, stats, names[i..]));
      if name in stats then
        && events != [] && events[0] == (name, NetSample(at, stats[name].rxBytes, stats[name].txBytes))
        && events[1..] == NetEvents(at, stats, names[i + 1..])
      else events == NetEvents(at, stats, names[i + 1..])
  {
    assert names[i..][1..] == names[i + 1..];
  }

  lemma ProcEventsStep(at: real, procs: map<string, Found>, names: seq<string>, i: nat)
    requires i < |names|
    ensures var (name, events) := (names[i], ProcEvents(at, procs, names[i..]));
      if name in procs && procs[name].stat.Some? then
        && events != [] && events[0] == (procs[name].pid, Sample(at, Ticks(procs[name].stat.value)))
        && events[1..] == ProcEvents(at, procs, names[i + 1..])
      else events == ProcEvents(at, procs, names[i + 1..])
  {
    assert names[i..][1..] == names[i + 1..];
  }

  lemma ReportsStep<K, S, I>(report: (Option<S>, K, S) -> I, m: map<K, S>, events: seq<(K, S)>, before: seq<I>)
    requires events != []
    ensures var (key, s) := events[0];
      && before + Reports(report, m, events)
         == (before + [report(Lookup(m, key), key, s)]) + Reports(report, m[key := s], events[1..])
      && Store(m, events) == Store(m[key := s], events[1..])
  {
  }
}
