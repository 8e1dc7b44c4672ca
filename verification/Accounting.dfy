/** What the monitor reports over any run of snapshots: nothing is counted twice and nothing is lost
    but what the reader deliberately does not report. */
module Accounting {
  import opened Bytes
  import opened Deltas
  import opened Jiffies
  import opened Sysmon

  // ---- runs ----

  function After(m: Kept, srcs: seq<Sources>): Kept
    decreases |srcs|
  {
    if srcs == [] then m else After(Observe(m, srcs[0]).0, srcs[1..])
  }

  function Outcomes(m: Kept, srcs: seq<Sources>): (results: seq<Result<Report, Failure>>)
    ensures |results| == |srcs|
    decreases |srcs|
  {
    if srcs == [] then [] else [Observe(m, srcs[0]).1] + Outcomes(Observe(m, srcs[0]).0, srcs[1..])
  }

  predicate Succeeds(src: Sources) {
    Readings(src.cpu).0.Some? && src.memory && src.net.Some?
  }

  function InterfacesIn(results: seq<Result<Report, Failure>>): seq<NetInfo> {
    if results == [] then []
    else (if results[0].Ok? then results[0].value.interfaces else []) + InterfacesIn(results[1..])
  }

  function ProcessesIn(results: seq<Result<Report, Failure>>): seq<ProcInfo> {
    if results == [] then []
    else (if results[0].Ok? then results[0].value.processes else []) + ProcessesIn(results[1..])
  }

  /** The overall percentages reported, one for every processor reading of the run; `None` where the
      snapshot failed after its reading and so reported nothing. */
  function BusyIn(srcs: seq<Sources>, results: seq<Result<Report, Failure>>): seq<Option<real>>
    requires |results| == |srcs|
  {
    if srcs == [] then []
    else
      (if Readings(srcs[0].cpu).0.None? then []
       else [if results[0].Ok? then Some(results[0].value.cpu.busyPct) else None])
      + BusyIn(srcs[1..], results[1..])
  }

  function Repeat<T>(v: T, n: nat): (s: seq<T>)
    ensures |s| == n && forall i :: 0 <= i < n ==> s[i] == v
  {
    if n == 0 then [] else [v] + Repeat(v, n - 1)
  }

  /** What one snapshot contributes: the core percentages, their readings, and whether they are shown. */
  function CoresNow(src: Sources, r: Result<Report, Failure>): seq<Option<real>> {
    var (overall, cores) := Readings(src.cpu);
    if overall.None? then []
    else if r.Ok? then Mask(Repeat(true, |r.value.cpu.perCore|), r.value.cpu.perCore)
    else Repeat(None, |cores|)
  }

  function CoreEventsNow(src: Sources): seq<(nat, CpuStat)> {
    var (overall, cores) := Readings(src.cpu);
    if overall.Some? then CoreEvents(cores, 0) else []
  }

  function ShownNow(src: Sources): (shown: seq<bool>)
    ensures |shown| == |CoreEventsNow(src)|
  {
    var (overall, cores) := Readings(src.cpu);
    if overall.Some? then Repeat(Succeeds(src), |cores|) else []
  }

  /** The same for the single cores, position by position. */
  function CoresIn(srcs: seq<Sources>, results: seq<Result<Report, Failure>>): seq<Option<real>>
    requires |results| == |srcs|
  {
    if srcs == [] then [] else CoresNow(srcs[0], results[0]) + CoresIn(srcs[1..], results[1..])
  }

  /** The appearances of interfaces and of processes in a run, in order. */
  function NetIn(srcs: seq<Sources>): seq<(string, NetSample)> {
    if srcs == [] then []
    else (if Succeeds(srcs[0]) then NetEvents(srcs[0].at, srcs[0].net.value, INTERFACES) else []) + NetIn(srcs[1..])
  }

  function ProcsIn(srcs: seq<Sources>): seq<(nat, Sample)> {
    if srcs == [] then []
    else (if Succeeds(srcs[0]) then ProcEvents(srcs[0].at, srcs[0].procs, PROCESSES) else []) + ProcsIn(srcs[1..])
  }

  /** The overall processor readings, under the key 0, and those of the single cores. */
  function OverallIn(srcs: seq<Sources>): seq<(nat, CpuStat)> {
    if srcs == [] then []
    else
      var (overall, _) := Readings(srcs[0].cpu);
      (if overall.Some? then [(0, overall.value)] else []) + OverallIn(srcs[1..])
  }

  function CoreReadingsIn(srcs: seq<Sources>): seq<(nat, CpuStat)> {
    if srcs == [] then [] else CoreEventsNow(srcs[0]) + CoreReadingsIn(srcs[1..])
  }

  /** For each of those readings, whether its snapshot succeeded. */
  function OverallShown(srcs: seq<Sources>): (shown: seq<bool>)
    ensures |shown| == |OverallIn(srcs)|
  {
    if srcs == [] then []
    else (if Readings(srcs[0].cpu).0.Some? then [Succeeds(srcs[0])] else []) + OverallShown(srcs[1..])
  }

  function CoresShown(srcs: seq<Sources>): (shown: seq<bool>)
    ensures |shown| == |CoreReadingsIn(srcs)|
  {
    if srcs == [] then [] else ShownNow(srcs[0]) + CoresShown(srcs[1..])
  }

  function AsMap<T>(o: Option<T>): map<nat, T> {
    match o case Some(v) => map[0 := v] case None => map[]
  }

  lemma {:induction false} NetRun(m: Kept, srcs: seq<Sources>)
    ensures After(m, srcs).net == Store(m.net, NetIn(srcs))
    ensures InterfacesIn(Outcomes(m, srcs)) == Reports(Interface, m.net, NetIn(srcs))
    decreases |srcs|
  {
    if srcs != [] {
      var (m', r) := Observe(m, srcs[0]);
      NetRun(m', srcs[1..]);
      assert Outcomes(m, srcs)[1..] == Outcomes(m', srcs[1..]);
      var now := if Succeeds(srcs[0]) then NetEvents(srcs[0].at, srcs[0].net.value, INTERFACES) else [];
      assert m'.net == Store(m.net, now);
      FoldConcat(Interface, m.net, now, NetIn(srcs[1..]));
    }
  }

  lemma {:induction false} ProcRun(m: Kept, srcs: seq<Sources>)
    ensures After(m, srcs).procs == Store(m.procs, ProcsIn(srcs))
    ensures ProcessesIn(Outcomes(m, srcs)) == Reports(Process, m.procs, ProcsIn(srcs))
    decreases |srcs|
  {
    if srcs != [] {
      var (m', r) := Observe(m, srcs[0]);
      ProcRun(m', srcs[1..]);
      assert Outcomes(m, srcs)[1..] == Outcomes(m', srcs[1..]);
      var now := if Succeeds(srcs[0]) then ProcEvents(srcs[0].at, srcs[0].procs, PROCESSES) else [];
      assert m'.procs == Store(m.procs, now);
      FoldConcat(Process, m.procs, now, ProcsIn(srcs[1..]));
    }
  }

  lemma OverallOne(m: Kept, src: Sources)
    requires Readings(src.cpu).0.Some?
    ensures var ((m', r), overall) := (Observe(m, src), Readings(src.cpu).0.value);
      && AsMap(m'.cpu) == AsMap(m.cpu)[0 := overall]
      && (r.Ok? <==> Succeeds(src))
      && (r.Ok? ==> r.value.cpu.busyPct == Pct(Lookup(AsMap(m.cpu), 0), 0, overall))
  {
    assert Lookup(AsMap(m.cpu), 0) == m.cpu;
  }

  lemma {:induction false} OverallRun(m: Kept, srcs: seq<Sources>)
    ensures AsMap(After(m, srcs).cpu) == Store(AsMap(m.cpu), OverallIn(srcs))
    ensures BusyIn(srcs, Outcomes(m, srcs)) == Mask(OverallShown(srcs), Reports(Pct, AsMap(m.cpu), OverallIn(srcs)))
    decreases |srcs|
  {
    if srcs != [] {
      var (m', r) := Observe(m, srcs[0]);
      OverallRun(m', srcs[1..]);
      assert Outcomes(m, srcs)[1..] == Outcomes(m', srcs[1..]);
      if Readings(srcs[0].cpu).0.Some? {
        OverallOne(m, srcs[0]);
        assert OverallIn(srcs)[1..] == OverallIn(srcs[1..]) && OverallShown(srcs)[1..] == OverallShown(srcs[1..]);
        var infos := Reports(Pct, AsMap(m.cpu), OverallIn(srcs));
        assert infos[1..] == Reports(Pct, AsMap(m'.cpu), OverallIn(srcs[1..]));
      } else {
        assert OverallIn(srcs) == OverallIn(srcs[1..]) && OverallShown(srcs) == OverallShown(srcs[1..]);
      }
    }
  }

  lemma MaskConcat<I>(a: seq<bool>, b: seq<bool>, x: seq<I>, y: seq<I>)
    requires |a| == |x| && |b| == |y|
    ensures Mask(a + b, x + y) == Mask(a, x) + Mask(b, y)
  {
  }

  lemma CoreOne(m: Kept, src: Sources)
    ensures var (m', r) := Observe(m, src);
      && m'.cores == Store(m.cores, CoreEventsNow(src))
      && CoresNow(src, r) == Mask(ShownNow(src), Reports(Pct, m.cores, CoreEventsNow(src)))
  {
  }

  lemma {:induction false} CoreRun(m: Kept, srcs: seq<Sources>)
    ensures After(m, srcs).cores == Store(m.cores, CoreReadingsIn(srcs))
    ensures CoresIn(srcs, Outcomes(m, srcs)) == Mask(CoresShown(srcs), Reports(Pct, m.cores, CoreReadingsIn(srcs)))
    decreases |srcs|
  {
    if srcs != [] {
      var (m', r) := Observe(m, srcs[0]);
      var rest := srcs[1..];
      CoreOne(m, srcs[0]);
      CoreRun(m', rest);
      assert Outcomes(m, srcs)[1..] == Outcomes(m', rest);
      FoldConcat(Pct, m.cores, CoreEventsNow(srcs[0]), CoreReadingsIn(rest));
      MaskConcat(ShownNow(srcs[0]), CoresShown(rest), Reports(Pct, m.cores, CoreEventsNow(srcs[0])),
                 Reports(Pct, m'.cores, CoreReadingsIn(rest)));
    }
  }

  // ---- interfaces ----

  function RxPerSecond(info: NetInfo): real { info.rxBps / 8.0 }
  function TxPerSecond(info: NetInfo): real { info.txBps / 8.0 }

  lemma BitsAreBytes(prev: Option<Sample>, cur: Sample)
    ensures BitRate(prev, cur) / 8.0 == Rate(prev, cur)
  {
    if prev.Some? && cur.at - prev.value.at > 0.05 && cur.count >= prev.value.count {
      var x, dt := (cur.count - prev.value.count) as real, cur.at - prev.value.at;
      var q := x / dt;
      assert q * dt == x;
      assert x * 8.0 / dt == q * 8.0;
    }
  }

  /** Of every interface, in either direction: the reported rates, each times the time since the
      interface last appeared, add up to the bytes between its first and its last appearance, less the
      growth over intervals of 50 milliseconds or less and over those in which the counter went back. */
  lemma ReceivedTelescopes(m: Kept, srcs: seq<Sources>, name: string)
    ensures |InterfacesIn(Outcomes(m, srcs))| == |NetIn(srcs)|
    ensures Volume(name, RxOf, RxPerSecond, m.net, NetIn(srcs), InterfacesIn(Outcomes(m, srcs)))
         == (Final(name, RxOf, After(m, srcs).net) - Base(name, RxOf, m.net, NetIn(srcs))
             - Unreported(name, RxOf, m.net, NetIn(srcs))) as real
    ensures Growing(name, RxOf, m.net, NetIn(srcs)) ==>
      Unreported(name, RxOf, m.net, NetIn(srcs)) == ShortGrowth(name, RxOf, m.net, NetIn(srcs))
  {
    NetRun(m, srcs);
    forall prev, s ensures RxPerSecond(Interface(prev, name, s)) == Rate(Seen(RxOf, prev), RxOf(s)) {
      BitsAreBytes(Seen(RxOf, prev), RxOf(s));
    }
    AlwaysHonest(name, RxOf, RxPerSecond, Interface, m.net, NetIn(srcs));
    Telescopes(name, RxOf, RxPerSecond, Interface, m.net, NetIn(srcs));
    if Growing(name, RxOf, m.net, NetIn(srcs)) {
      OnlyShortUnreported(name, RxOf, m.net, NetIn(srcs));
    }
  }

  lemma SentTelescopes(m: Kept, srcs: seq<Sources>, name: string)
    ensures |InterfacesIn(Outcomes(m, srcs))| == |NetIn(srcs)|
    ensures Volume(name, TxOf, TxPerSecond, m.net, NetIn(srcs), InterfacesIn(Outcomes(m, srcs)))
         == (Final(name, TxOf, After(m, srcs).net) - Base(name, TxOf, m.net, NetIn(srcs))
             - Unreported(name, TxOf, m.net, NetIn(srcs))) as real
    ensures Growing(name, TxOf, m.net, NetIn(srcs)) ==>
      Unreported(name, TxOf, m.net, NetIn(srcs)) == ShortGrowth(name, TxOf, m.net, NetIn(srcs))
  {
    NetRun(m, srcs);
    forall prev, s ensures TxPerSecond(Interface(prev, name, s)) == Rate(Seen(TxOf, prev), TxOf(s)) {
      BitsAreBytes(Seen(TxOf, prev), TxOf(s));
    }
    AlwaysHonest(name, TxOf, TxPerSecond, Interface, m.net, NetIn(srcs));
    Telescopes(name, TxOf, TxPerSecond, Interface, m.net, NetIn(srcs));
    if Growing(name, TxOf, m.net, NetIn(srcs)) {
      OnlyShortUnreported(name, TxOf, m.net, NetIn(srcs));
    }
  }

  /** The sample kept for an interface is that of its last appearance, however long ago. */
  lemma LastAppearanceKept(m: Kept, srcs: seq<Sources>, name: string, j: nat)
    requires j < |NetIn(srcs)| && NetIn(srcs)[j].0 == name
    requires forall k :: j < k < |NetIn(srcs)| ==> NetIn(srcs)[k].0 != name
    ensures name in After(m, srcs).net && After(m, srcs).net[name] == NetIn(srcs)[j].1
  {
    NetRun(m, srcs);
    StoreLast(m.net, NetIn(srcs), j);
  }

  lemma {:induction false} StoreLast<K, S>(m: map<K, S>, events: seq<(K, S)>, j: nat)
    requires j < |events| && forall k :: j < k < |events| ==> events[k].0 != events[j].0
    ensures events[j].0 in Store(m, events) && Store(m, events)[events[j].0] == events[j].1
    decreases |events|
  {
    var m' := m[events[0].0 := events[0].1];
    if j > 0 {
      StoreLast(m', events[1..], j - 1);
    } else {
      StoreUntouched(m', events[1..], events[0].0);
    }
  }

  lemma {:induction false} StoreUntouched<K, S>(m: map<K, S>, events: seq<(K, S)>, key: K)
    requires key in m && forall k :: 0 <= k < |events| ==> events[k].0 != key
    ensures key in Store(m, events) && Store(m, events)[key] == m[key]
    decreases |events|
  {
    if events != [] {
      StoreUntouched(m[events[0].0 := events[0].1], events[1..], key);
    }
  }

  // ---- processes ----

  function Itself(s: Sample): Sample { s }
  function TicksPerSecond(info: ProcInfo): real { info.cpuPct }

  lemma PercentAreTicks(prev: Option<Sample>, cur: Sample)
    ensures CpuPct(prev, cur) == Rate(prev, cur)
  {
    if prev.Some? && cur.at - prev.value.at > 0.05 && cur.count >= prev.value.count {
      var x, dt := (cur.count - prev.value.count) as real, cur.at - prev.value.at;
      var q := x / dt;
      assert q * dt == x;
      assert x * 100.0 == q * (dt * HZ);
      assert x * 100.0 / (dt * HZ) == q;
    }
  }

  /** Of every process id: reported processor shares times elapsed seconds add up to the process's
      jiffies, a hundred of which are a second, less the growth over intervals that were too short or in
      which the count went back. */
  lemma ProcessTimeTelescopes(m: Kept, srcs: seq<Sources>, pid: nat)
    ensures |ProcessesIn(Outcomes(m, srcs))| == |ProcsIn(srcs)|
    ensures Volume(pid, Itself, TicksPerSecond, m.procs, ProcsIn(srcs), ProcessesIn(Outcomes(m, srcs)))
         == (Final(pid, Itself, After(m, srcs).procs) - Base(pid, Itself, m.procs, ProcsIn(srcs))
             - Unreported(pid, Itself, m.procs, ProcsIn(srcs))) as real
    ensures Growing(pid, Itself, m.procs, ProcsIn(srcs)) ==>
      Unreported(pid, Itself, m.procs, ProcsIn(srcs)) == ShortGrowth(pid, Itself, m.procs, ProcsIn(srcs))
  {
    ProcRun(m, srcs);
    forall prev, s ensures TicksPerSecond(Process(prev, pid, s)) == Rate(Seen(Itself, prev), Itself(s)) {
      PercentAreTicks(prev, s);
    }
    AlwaysHonest(pid, Itself, TicksPerSecond, Process, m.procs, ProcsIn(srcs));
    Telescopes(pid, Itself, TicksPerSecond, Process, m.procs, ProcsIn(srcs));
    if Growing(pid, Itself, m.procs, ProcsIn(srcs)) {
      OnlyShortUnreported(pid, Itself, m.procs, ProcsIn(srcs));
    }
  }

  // ---- processor ----

  /** Busy jiffies over all jiffies, as a counter over time. */
  function Share(st: CpuStat): Sample { Sample(st.Sum() as real, st.BusySum()) }
  function Fraction(pct: real): real { pct / 100.0 }

  /** Along the readings no counter goes back. */
  predicate CpuGrows(key: nat, m: map<nat, CpuStat>, events: seq<(nat, CpuStat)>)
    decreases |events|
  {
    events == [] ||
      (var (k, st) := events[0];
       && (k == key && key in m ==> Grows(m[key], st))
       && CpuGrows(key, m[k := st], events[1..]))
  }

  lemma PctOfCounts(pct: real, p: nat, c: nat, bp: nat, bc: nat)
    ensures (
      && bp <= bc && bc - bp <= c - p
      && pct == if c == p then 0.0 else (bc - bp) as real / (c - p) as real * 100.0) ==>
      Fraction(pct) == Rate(Some(Sample(p as real, bp)), Sample(c as real, bc))
  {
    assert c as real - p as real == (c - p) as real;
  }

  lemma ShareIsRate(prev: CpuStat, cur: CpuStat, pct: real)
    requires IsBusyShare(prev, cur, pct)
    ensures Fraction(pct) == Rate(Some(Share(prev)), Share(cur))
    ensures cur.BusySum() >= prev.BusySum()
    ensures Share(cur).at - Share(prev).at <= 0.05 ==> cur.BusySum() == prev.BusySum()
  {
    PctOfCounts(pct, prev.Sum(), cur.Sum(), prev.BusySum(), cur.BusySum());
    assert cur.Sum() as real - prev.Sum() as real == (cur.Sum() - prev.Sum()) as real;
  }

  lemma {:induction false} GrowingCpuHonest(key: nat, m: map<nat, CpuStat>, events: seq<(nat, CpuStat)>)
    requires CpuGrows(key, m, events)
    ensures Honest(key, Share, Fraction, Pct, m, events) && Unreported(key, Share, m, events) == 0
    decreases |events|
  {
    if events != [] {
      var (k, st) := events[0];
      GrowingCpuHonest(key, m[k := st], events[1..]);
      if k == key && key in m {
        BusyShare(m[key], st);
        ShareIsRate(m[key], st, PctBusy(m[key], st));
      }
    }
  }

  /** The growth of a core's busy jiffies over the intervals that nobody reported: those that end in a
      snapshot that failed after its processor reading. */
  function LostGrowth(key: nat, m: map<nat, CpuStat>, events: seq<(nat, CpuStat)>, shown: seq<bool>): (lost: int)
    requires |shown| == |events|
    decreases |events|
  {
    if events == [] then 0
    else
      var (k, st) := events[0];
      (if k == key && key in m && !shown[0] then st.BusySum() - m[key].BusySum() else 0)
      + LostGrowth(key, m[k := st], events[1..], shown[1..])
  }

  lemma {:induction false} LostGrowthBounds(key: nat, m: map<nat, CpuStat>, events: seq<(nat, CpuStat)>,
                                            shown: seq<bool>)
    requires |shown| == |events| && CpuGrows(key, m, events)
    ensures LostGrowth(key, m, events, shown) >= 0
    ensures (forall i :: 0 <= i < |shown| ==> shown[i]) ==> LostGrowth(key, m, events, shown) == 0
    decreases |events|
  {
    if events != [] {
      LostGrowthBounds(key, m[events[0].0 := events[0].1], events[1..], shown[1..]);
    }
  }

  lemma StandingStill(prev: CpuStat, cur: CpuStat)
    requires Grows(prev, cur)
    ensures cur.BusySum() >= prev.BusySum()
    ensures cur.Sum() as real - prev.Sum() as real <= 0.05 ==> cur.BusySum() == prev.BusySum()
  {
    assert cur.Sum() as real - prev.Sum() as real == (cur.Sum() - prev.Sum()) as real;
  }

  lemma {:induction false} LostIsGrowth(key: nat, m: map<nat, CpuStat>, events: seq<(nat, CpuStat)>, shown: seq<bool>)
    requires |shown| == |events| && CpuGrows(key, m, events)
    ensures Lost(key, Share, m, events, shown) == LostGrowth(key, m, events, shown)
    decreases |events|
  {
    if events != [] {
      var (k, st) := events[0];
      LostIsGrowth(key, m[k := st], events[1..], shown[1..]);
      if k == key && key in m {
        StandingStill(m[key], st);
      }
    }
  }

  lemma CpuTelescopes(key: nat, m: map<nat, CpuStat>, events: seq<(nat, CpuStat)>, shown: seq<bool>)
    requires |shown| == |events| && CpuGrows(key, m, events)
    ensures Volume(key, Share, IfShown(Fraction), m, events, Mask(shown, Reports(Pct, m, events)))
         == (Final(key, Share, Store(m, events)) - Base(key, Share, m, events)
             - LostGrowth(key, m, events, shown)) as real
  {
    GrowingCpuHonest(key, m, events);
    MaskedTelescopes(key, Share, Fraction, Pct, m, events, shown);
    LostIsGrowth(key, m, events, shown);
  }

  /** What is reported is the growth less what is lost, and so all of it exactly when nothing is. */
  predicate Adds(reported: real, growth: int, lost: int) {
    reported == (growth - lost) as real && lost >= 0 && (reported == growth as real <==> lost == 0)
  }

  lemma CpuAdds(key: nat, m: map<nat, CpuStat>, events: seq<(nat, CpuStat)>, shown: seq<bool>)
    requires |shown| == |events| && CpuGrows(key, m, events)
    ensures var lost := LostGrowth(key, m, events, shown);
      var growth := Final(key, Share, Store(m, events)) - Base(key, Share, m, events);
      && Adds(Volume(key, Share, IfShown(Fraction), m, events, Mask(shown, Reports(Pct, m, events))), growth, lost)
      && ((forall i :: 0 <= i < |shown| ==> shown[i]) ==> lost == 0)
  {
    CpuTelescopes(key, m, events, shown);
    LostGrowthBounds(key, m, events, shown);
  }

  /** Over every run of snapshots, the reported busy percentages, each weighted by the jiffies it covers,
      add up to the busy jiffies between the first and the last reading less those of the intervals that
      end in a snapshot failing after its reading; nothing is missing exactly when those had none. */
  lemma BusyTelescopes(m: Kept, srcs: seq<Sources>)
    requires CpuGrows(0, AsMap(m.cpu), OverallIn(srcs))
    ensures |BusyIn(srcs, Outcomes(m, srcs))| == |OverallIn(srcs)|
    ensures var lost := LostGrowth(0, AsMap(m.cpu), OverallIn(srcs), OverallShown(srcs));
      var growth := Final(0, Share, AsMap(After(m, srcs).cpu)) - Base(0, Share, AsMap(m.cpu), OverallIn(srcs));
      var infos := BusyIn(srcs, Outcomes(m, srcs));
      var reported := Volume(0, Share, IfShown(Fraction), AsMap(m.cpu), OverallIn(srcs), infos);
      Adds(reported, growth, lost) && (NoneLost(srcs) ==> lost == 0)
  {
    OverallRun(m, srcs);
    CpuAdds(0, AsMap(m.cpu), OverallIn(srcs), OverallShown(srcs));
    if NoneLost(srcs) {
      AllShown(srcs);
    }
  }

  /** No snapshot fails after its processor reading. */
  predicate NoneLost(srcs: seq<Sources>) {
    forall i :: 0 <= i < |srcs| && Readings(srcs[i].cpu).0.Some? ==> Succeeds(srcs[i])
  }

  lemma {:induction false} AllShown(srcs: seq<Sources>)
    requires NoneLost(srcs)
    ensures forall i :: 0 <= i < |OverallShown(srcs)| ==> OverallShown(srcs)[i]
    ensures forall i :: 0 <= i < |CoresShown(srcs)| ==> CoresShown(srcs)[i]
  {
    if srcs != [] {
      AllShown(srcs[1..]);
    }
  }

  /** The same for each core by its position, cores that come and go included. */
  lemma CoreTelescopes(m: Kept, srcs: seq<Sources>, core: nat)
    requires CpuGrows(core, m.cores, CoreReadingsIn(srcs))
    ensures |CoresIn(srcs, Outcomes(m, srcs))| == |CoreReadingsIn(srcs)|
    ensures var lost := LostGrowth(core, m.cores, CoreReadingsIn(srcs), CoresShown(srcs));
      var growth := Final(core, Share, After(m, srcs).cores) - Base(core, Share, m.cores, CoreReadingsIn(srcs));
      var infos := CoresIn(srcs, Outcomes(m, srcs));
      var reported := Volume(core, Share, IfShown(Fraction), m.cores, CoreReadingsIn(srcs), infos);
      Adds(reported, growth, lost) && (NoneLost(srcs) ==> lost == 0)
  {
    CoreRun(m, srcs);
    CpuAdds(core, m.cores, CoreReadingsIn(srcs), CoresShown(srcs));
    if NoneLost(srcs) {
      AllShown(srcs);
    }
  }

  /** A snapshot that fails after its processor reading keeps the overall and the core readings, and
      nothing else; one that fails before it keeps nothing. */
  lemma FailedSnapshotLosesInterval(m: Kept, src: Sources)
    requires !Succeeds(src)
    ensures var ((m', r), overall) := (Observe(m, src), Readings(src.cpu).0);
      && r.Err?
      && (overall.None? ==> m' == m)
      && (overall.Some? ==> m' == m.(cpu := overall, cores := Store(m.cores, CoreEventsNow(src))))
  {
  }
}
