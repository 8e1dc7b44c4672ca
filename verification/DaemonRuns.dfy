/** What holds of every run of the daemon, from start-up on, under every interleaving. */
module DaemonRuns {
  import opened Bytes
  import opened Coherence
  import opened Counters
  import opened Crypto
  import opened Daemon
  import opened Interleaving
  import opened Linearizability
  import opened OneAlgorithm
  import opened Progress
  import opened Providers
  import opened Tallies
  import Gcm

  /** No deadlock: whatever has happened, while a request is unanswered some task can move. */
  lemma NeverStuck(c: Gcm.Cipher, run: seq<Event>, i: nat) returns (j: nat)
    requires i < |Exec(DaemonHandler(c), IDLE, run).tasks| && !Exec(DaemonHandler(c), IDLE, run).tasks[i].pc.Done?
    ensures Enabled(Exec(DaemonHandler(c), IDLE, run), j)
  {
    DaemonWellBehaved(c);
    RunKeepsLocks(DaemonHandler(c), IDLE, run);
    j := SomeTaskCanMove(Exec(DaemonHandler(c), IDLE, run), i);
  }

  /** Every request is answered: after any run, however the tasks are scheduled from then on, at most
      eight moves per request are left, and when no task can move every request has its answer. */
  lemma EveryRequestAnswered(c: Gcm.Cipher, run: seq<Event>, rest: seq<Event>)
    requires Busy(DaemonHandler(c), Exec(DaemonHandler(c), IDLE, run), rest)
    ensures |rest| <= 8 * Arrivals(run)
    ensures var end := Exec(DaemonHandler(c), IDLE, run + rest);
      AllDone(end) <==> forall j :: !Enabled(end, j)
  {
    var h := DaemonHandler(c);
    DaemonWellBehaved(c);
    RunKeepsLocks(h, IDLE, run);
    MovesBounded(h, IDLE, run);
    EveryRequestFinishes(h, Exec(h, IDLE, run), rest);
    ExecConcat(h, IDLE, run, rest);
  }

  /** With rotations one at a time, provider, algorithm and key agree whenever none is in flight. */
  lemma SoloRotationsKeepCoherence(c: Gcm.Cipher, run: seq<Event>)
    requires SoloRotations(DaemonHandler(c), IDLE, run)
    ensures var end := Exec(DaemonHandler(c), IDLE, run);
      (forall i :: 0 <= i < |end.tasks| ==> !Rotating(end.tasks[i].pc)) ==> Coherent(end.cells)
  {
    DaemonWritesInOrder(c);
    SoloRunsStayCoherent(DaemonHandler(c), IDLE, run);
  }

  /** Answers respect real time: a request answered before another arrived takes effect before it. */
  lemma AnswersRespectRealTime(c: Gcm.Cipher, first: seq<Event>, second: seq<Event>, i: nat, j: nat, k: nat)
    requires i < |Exec(DaemonHandler(c), IDLE, first).tasks| && Exec(DaemonHandler(c), IDLE, first).tasks[i].pc.Done?
    requires var log := Log(DaemonHandler(c), DaemonAccount(c), IDLE, first + second);
      j < |log| && k < |log| && log[j].task == i && log[k].task >= |Exec(DaemonHandler(c), IDLE, first).tasks|
    ensures j < k
  {
    DaemonAccountSound(c);
    IdleExplained(c);
    FreelySteered(DaemonHandler(c), DaemonAccount(c), IDLE, first + second);
    RealTimeOrder(DaemonHandler(c), DaemonAccount(c), IDLE, first, second, i, j, k);
  }

  lemma {:induction false} ReplayedKeyWellFormed(c: Gcm.Cipher, log: seq<Entry>, n: nat)
    requires n <= |log|
    ensures var cell := Replay(DaemonAccount(c), log, n);
      cell.Some? ==> cell.value.WellFormed() && cell.value.algo != OzDst1105
  {
    if n > 0 {
      ReplayedKeyWellFormed(c, log, n - 1);
      var req := log[n - 1].req;
      if req.RotateKey? {
        RotationVerdictExact(c, req.keyId, req.algo, req.material);
      }
    }
  }

  /** Every active key of every run has material of its algorithm's length. */
  lemma ActiveKeyWellFormed(c: Gcm.Cipher, run: seq<Event>)
    ensures var key := Exec(DaemonHandler(c), IDLE, run).cells.key;
      key.Some? ==> key.value.WellFormed() && key.value.algo != OzDst1105
  {
    DaemonAccountSound(c);
    IdleExplained(c);
    FreelySteered(DaemonHandler(c), DaemonAccount(c), IDLE, run);
    RunFromStart(DaemonHandler(c), DaemonAccount(c), IDLE, run);
    var log := Log(DaemonHandler(c), DaemonAccount(c), IDLE, run);
    ReplayedKeyWellFormed(c, log, |log|);
  }

  /** The provider and the algorithm are ones a provider can be built for, and so are those of every
      rotation in flight. */
  predicate Constructible(c: Gcm.Cipher, s: Sys) {
    && New(Ring, s.cells.provider.algo) == Ok(s.cells.provider) && New(Ring, s.cells.algo).Ok?
    && forall i :: 0 <= i < |s.tasks| && Rotating(s.tasks[i].pc) ==>
         Prepared(c, s.tasks[i].req) == Ok(s.tasks[i].pc.key) && s.tasks[i].pc.key.algo != OzDst1105
  }

  lemma StepConstructible(c: Gcm.Cipher, h: Handler, s: Sys, i: nat, clock: u64)
    requires Orderly(c, h) && Constructible(c, s) && Enabled(s, i)
    ensures Constructible(c, Step(h, s, i, clock))
  {
    var req, s' := s.tasks[i].req, Step(h, s, i, clock);
    if req.RotateKey? {
      RotationVerdictExact(c, req.keyId, req.algo, req.material);
    }
    assert Rotating(s'.tasks[i].pc) && !Rotating(s.tasks[i].pc) ==> Prepared(c, req) == Ok(s'.tasks[i].pc.key);
  }

  lemma {:induction false} RunConstructible(c: Gcm.Cipher, h: Handler, s: Sys, run: seq<Event>)
    requires Orderly(c, h) && Constructible(c, s)
    ensures Constructible(c, Exec(h, s, run))
    decreases |run|
  {
    if run != [] {
      if run[0].Run? && Enabled(s, run[0].task) {
        StepConstructible(c, h, s, run[0].task, run[0].clock);
      } else {
        assert Constructible(c, Apply(h, s, run[0]));
      }
      RunConstructible(c, h, Apply(h, s, run[0]), run[1..]);
    }
  }

  /** In every run the active provider is one that its constructor can build, so that the branches for
      O'z DSt 1105 behind it are never reached. */
  lemma ActiveProviderConstructible(c: Gcm.Cipher, run: seq<Event>)
    ensures var cells := Exec(DaemonHandler(c), IDLE, run).cells;
      New(Ring, cells.provider.algo) == Ok(cells.provider) && New(Ring, cells.algo).Ok?
  {
    DaemonOrderly(c);
    RunConstructible(c, DaemonHandler(c), IDLE, run);
  }

  // ---- a request with the daemon to itself ----

  /** A status request arrives and reads the algorithm; it is about to wait for the key mutex. */
  lemma ReadAlgo(c: Gcm.Cipher, run: seq<Event>, s: Sys) returns (longer: seq<Event>, s': Sys)
    requires Exec(DaemonHandler(c), IDLE, run) == s && s.held == map[]
    ensures run <= longer && Exec(DaemonHandler(c), IDLE, longer) == s'
    ensures s' == Sys(s.cells, map[], s.tasks + [Task(GetStatus, StatusWantKey(s.cells.algo))])
  {
    var h, n := DaemonHandler(c), |s.tasks|;
    longer, s' := OneMore(h, run, Arrive(GetStatus));
    longer, s' := OneMore(h, longer, Run(n, 0));
    longer, s' := OneMore(h, longer, Run(n, 0));
    assert s' == Sys(s.cells, map[AlgoM := n], s.tasks + [Task(GetStatus, StatusHoldAlgo)]);
    longer, s' := OneMore(h, longer, Run(n, 0));
  }

  /** The answer of a status request that read `algo` earlier and reads the key at `clock`. */
  function Reported(cells: Cells, algo: AlgoId, clock: u64): Response {
    Status(StatusReport(clock, algo, IdOf(cells.key), cells.packetsSealed, cells.packetsOpened, cells.cryptoErrors))
  }

  lemma ReadStatusKey(c: Gcm.Cipher, run: seq<Event>, s: Sys, i: nat, algo: AlgoId, clock: u64)
    returns (longer: seq<Event>, s': Sys)
    requires Exec(DaemonHandler(c), IDLE, run) == s && s.held == map[]
    requires i < |s.tasks| && s.tasks[i] == Task(GetStatus, StatusWantKey(algo))
    ensures run <= longer && Exec(DaemonHandler(c), IDLE, longer) == s'
    ensures var report := StatusReport(clock, algo, IdOf(s.cells.key), 0, 0, 0);
      s' == Sys(s.cells, map[KeyM := i], s.tasks[i := Task(GetStatus, StatusLoad(0, report))])
  {
    longer, s' := OneMore(DaemonHandler(c), run, Run(i, 0));
    longer, s' := OneMore(DaemonHandler(c), longer, Run(i, clock));
  }

  /** One counter is loaded, under the key mutex. */
  lemma LoadOne(c: Gcm.Cipher, run: seq<Event>, s: Sys, i: nat, n: nat, r: StatusReport)
    returns (longer: seq<Event>, s': Sys)
    requires Exec(DaemonHandler(c), IDLE, run) == s && n < 2
    requires i < |s.tasks| && s.tasks[i] == Task(GetStatus, StatusLoad(n, r))
    ensures run <= longer && Exec(DaemonHandler(c), IDLE, longer) == s'
    ensures var r' := if n == 0 then r.(packetsSealed := s.cells.packetsSealed)
                      else r.(packetsOpened := s.cells.packetsOpened);
      s' == Sys(s.cells, s.held, s.tasks[i := Task(GetStatus, StatusLoad(n + 1, r'))])
  {
    longer, s' := OneMore(DaemonHandler(c), run, Run(i, 0));
  }

  lemma LoadLast(c: Gcm.Cipher, run: seq<Event>, s: Sys, i: nat, r: StatusReport) returns (longer: seq<Event>, s': Sys)
    requires Exec(DaemonHandler(c), IDLE, run) == s && s.held == map[KeyM := i]
    requires i < |s.tasks| && s.tasks[i] == Task(GetStatus, StatusLoad(2, r))
    ensures run <= longer && Exec(DaemonHandler(c), IDLE, longer) == s'
    ensures var r' := r.(cryptoErrors := s.cells.cryptoErrors);
      s' == Sys(s.cells, map[], s.tasks[i := Task(GetStatus, Done(Status(r')))])
  {
    longer, s' := OneMore(DaemonHandler(c), run, Run(i, 0));
  }

  lemma ReportStatus(c: Gcm.Cipher, run: seq<Event>, s: Sys, i: nat, algo: AlgoId, clock: u64)
    returns (longer: seq<Event>, s': Sys)
    requires Exec(DaemonHandler(c), IDLE, run) == s && s.held == map[]
    requires i < |s.tasks| && s.tasks[i] == Task(GetStatus, StatusWantKey(algo))
    ensures run <= longer && Exec(DaemonHandler(c), IDLE, longer) == s'
    ensures s' == Sys(s.cells, map[], s.tasks[i := Task(GetStatus, Done(Reported(s.cells, algo, clock)))])
  {
    longer, s' := ReadStatusKey(c, run, s, i, algo, clock);
    longer, s' := LoadOne(c, longer, s', i, 0, s'.tasks[i].pc.report);
    longer, s' := LoadOne(c, longer, s', i, 1, s'.tasks[i].pc.report);
    longer, s' := LoadLast(c, longer, s', i, s'.tasks[i].pc.report);
  }

  lemma StatusAlone(c: Gcm.Cipher, run: seq<Event>, s: Sys, clock: u64) returns (longer: seq<Event>, s': Sys)
    requires Exec(DaemonHandler(c), IDLE, run) == s && s.held == map[]
    ensures run <= longer && Exec(DaemonHandler(c), IDLE, longer) == s'
    ensures s' == Sys(s.cells, map[], s.tasks + [Task(GetStatus, Done(Serve(c, s.cells, GetStatus, clock).1))])
  {
    longer, s' := ReadAlgo(c, run, s);
    longer, s' := ReportStatus(c, longer, s', |s.tasks|, s.cells.algo, clock);
  }

  /** A status report can name the algorithm of before a rotation together with the key id of after it,
      even when rotations never overlap. */
  lemma StatusCanMix(c: Gcm.Cipher, r: Request, clock: u64) returns (run: seq<Event>)
    requires Prepared(c, r).Ok? && Prepared(c, r).value.algo != Aes256Gcm
    ensures var end, key := Exec(DaemonHandler(c), IDLE, run), Prepared(c, r).value;
      && end.tasks == [Task(GetStatus, Done(Status(StatusReport(clock, Aes256Gcm, Some(key.id), 0, 0, 0)))),
                       Task(r, Done(Ack))]
      && end.cells.key == Some(key)
  {
    var s := IDLE;
    run, s := ReadAlgo(c, [], s);
    run, s := RotateAlone(c, run, s, r);
    run, s := ReportStatus(c, run, s, 0, Aes256Gcm, clock);
  }

  /** The report is of a reading of the key at its own time: `run[n]` is where the task read it. */
  ghost predicate ReadAt(c: Gcm.Cipher, run: seq<Event>, i: nat, n: nat, r: StatusReport) {
    && n < |run| && run[n] == Run(i, r.uptime)
    && r.activeKeyId == IdOf(Exec(DaemonHandler(c), IDLE, run[..n]).cells.key)
  }

  /** The report a task has begun or given. */
  function ReportOf(pc: Pc): Option<StatusReport> {
    match pc
    case StatusLoad(_, r) => Some(r)
    case Done(Status(r)) => Some(r)
    case _ => None
  }

  /** How an event changes the report a task has, as far as uptime and key id go. */
  predicate ReportStep(s: Sys, e: Event, i: nat, r: StatusReport) {
    || (e == Run(i, r.uptime) && r.activeKeyId == IdOf(s.cells.key))
    || (i < |s.tasks| && ReportOf(s.tasks[i].pc).Some?
        && ReportOf(s.tasks[i].pc).value.uptime == r.uptime
        && ReportOf(s.tasks[i].pc).value.activeKeyId == r.activeKeyId)
  }

  /** Only status requests have reports to give. */
  predicate NoOtherReports(s: Sys) {
    forall i :: 0 <= i < |s.tasks| ==>
      match s.tasks[i].pc
      case UseCount(resp) => !resp.Status?
      case UseRelease(resp) => !resp.Status?
      case _ => true
  }

  lemma ReportsStep(c: Gcm.Cipher, s: Sys, e: Event)
    requires NoOtherReports(s)
    ensures var s' := Apply(DaemonHandler(c), s, e);
      && NoOtherReports(s')
      && forall i :: 0 <= i < |s'.tasks| && ReportOf(s'.tasks[i].pc).Some? ==>
           ReportStep(s, e, i, ReportOf(s'.tasks[i].pc).value)
  {
  }

  /** Every status report of every run gives the time at which its task read the key, and that key's id. */
  lemma {:induction false} ReportIsOfItsTime(c: Gcm.Cipher, run: seq<Event>)
    ensures var s := Exec(DaemonHandler(c), IDLE, run);
      && NoOtherReports(s)
      && forall i :: 0 <= i < |s.tasks| && ReportOf(s.tasks[i].pc).Some? ==>
           exists n: nat :: ReadAt(c, run, i, n, ReportOf(s.tasks[i].pc).value)
    decreases |run|
  {
    if run != [] {
      var h, before, e := DaemonHandler(c), run[..|run| - 1], run[|run| - 1];
      var s, s' := Exec(h, IDLE, before), Exec(h, IDLE, run);
      ReportIsOfItsTime(c, before);
      assert run == before + [e];
      var longer, last := OneMore(h, before, e);
      ReportsStep(c, s, e);
      forall i | 0 <= i < |s'.tasks| && ReportOf(s'.tasks[i].pc).Some?
        ensures exists n: nat :: ReadAt(c, run, i, n, ReportOf(s'.tasks[i].pc).value)
      {
        var r := ReportOf(s'.tasks[i].pc).value;
        if e == Run(i, r.uptime) && r.activeKeyId == IdOf(s.cells.key) {
          assert ReadAt(c, run, i, |before|, r);
        } else {
          var n: nat :| ReadAt(c, before, i, n, ReportOf(s.tasks[i].pc).value);
          assert run[..n] == before[..n];
          assert ReadAt(c, run, i, n, r);
        }
      }
    }
  }

  lemma RefusedAlone(c: Gcm.Cipher, run: seq<Event>, s: Sys, req: Request) returns (longer: seq<Event>, s': Sys)
    requires Exec(DaemonHandler(c), IDLE, run) == s && s.held == map[]
    requires s.cells.key.None? && (req.Encrypt? || req.Decrypt?)
    ensures run <= longer && Exec(DaemonHandler(c), IDLE, longer) == s'
    ensures s' == Sys(s.cells, map[], s.tasks + [Task(req, Done(Error(409, NoActiveKey)))])
  {
    var h, n := DaemonHandler(c), |s.tasks|;
    longer, s' := OneMore(h, run, Arrive(req));
    longer, s' := OneMore(h, longer, Run(n, 0));
    longer, s' := OneMore(h, longer, Run(n, 0));
    assert s'.held == map[KeyM := n];
    longer, s' := OneMore(h, longer, Run(n, 0));
  }

  /** With the daemon to itself, a request does through its separately locked steps exactly what the
      handlers, run in one piece at any time, do to the daemon's state. */
  lemma AloneIsServe(c: Gcm.Cipher, run: seq<Event>, s: Sys, req: Request, clock: u64)
    returns (longer: seq<Event>, s': Sys)
    requires Exec(DaemonHandler(c), IDLE, run) == s && s.held == map[]
    ensures run <= longer && Exec(DaemonHandler(c), IDLE, longer) == s'
    ensures var (cells, resp) := Serve(c, s.cells, req, clock);
      s' == Sys(cells, map[], s.tasks + [Task(req, Done(resp))])
  {
    var h, n := DaemonHandler(c), |s.tasks|;
    if req.GetStatus? {
      longer, s' := StatusAlone(c, run, s, clock);
    } else if req.SetPolicy? || (req.RotateKey? && Prepared(c, req).Err?) {
      longer, s' := OneMore(h, run, Arrive(req));
      longer, s' := OneMore(h, longer, Run(n, 0));
    } else if req.RotateKey? {
      longer, s' := RotateAlone(c, run, s, req);
    } else if s.cells.key.None? {
      longer, s' := RefusedAlone(c, run, s, req);
    } else {
      longer, s' := ReadKey(c, run, s, req);
      longer, s' := UseProvider(c, longer, s', n);
    }
  }

  /** When everything is answered, a status request that then has the daemon to itself reports how many of
      the answers were ciphertexts, plaintexts, and failed seals and opens, and the time it asked. */
  lemma QuietReport(c: Gcm.Cipher, run: seq<Event>, clock: u64) returns (longer: seq<Event>, r: StatusReport)
    requires AllDone(Exec(DaemonHandler(c), IDLE, run))
    ensures run <= longer
    ensures var end := Exec(DaemonHandler(c), IDLE, run);
      && Exec(DaemonHandler(c), IDLE, longer).tasks == end.tasks + [Task(GetStatus, Done(Status(r)))]
      && r.uptime == clock && r.activeProvider == end.cells.algo && r.activeKeyId == IdOf(end.cells.key)
      && r.packetsSealed == Sum(Answered(Sealed), end.tasks) % 0x1_0000_0000_0000_0000
      && r.packetsOpened == Sum(Answered(Opened), end.tasks) % 0x1_0000_0000_0000_0000
      && r.cryptoErrors == Sum(Answered(Failed), end.tasks) % 0x1_0000_0000_0000_0000
  {
    var h, end := DaemonHandler(c), Exec(DaemonHandler(c), IDLE, run);
    DaemonWellBehaved(c);
    RunKeepsLocks(h, IDLE, run);
    assert forall m :: m !in end.held;
    CountersExact(c, run);
    var after;
    longer, after := StatusAlone(c, run, end, clock);
    r := Serve(c, end.cells, GetStatus, clock).1.report;
  }
}
