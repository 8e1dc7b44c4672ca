/** Exactly when the daemon with three cells can be told from the one with one: the conditions are on
    the rotations it is ever asked for, and quantify over every run that asks for no others. */
module Exactness {
  import opened Bytes
  import opened Coherence
  import opened Crypto
  import opened Daemon
  import opened DaemonRuns
  import opened Interleaving
  import opened Linearizability
  import opened OneAlgorithm
  import opened Providers
  import Frames
  import Gcm
  import Wire

  function End(c: Gcm.Cipher, run: seq<Event>): Sys {
    Exec(DaemonHandler(c), IDLE, run)
  }

  function LogOf(c: Gcm.Cipher, run: seq<Event>): seq<Entry> {
    Log(DaemonHandler(c), DaemonAccount(c), IDLE, run)
  }

  /** What the key cell held when the `j`-th logged request took effect. */
  function CellAt(c: Gcm.Cipher, run: seq<Event>, j: nat): Option<KeyHandle>
    requires j <= |LogOf(c, run)|
  {
    Replay(DaemonAccount(c), LogOf(c, run), j)
  }

  predicate Finished(s: Sys, i: nat) {
    i < |s.tasks| && s.tasks[i].pc.Done?
  }

  /** The answer to request `i`, which stands in the log at one place, is the one-cell daemon's there. */
  ghost predicate AnsweredExactly(c: Gcm.Cipher, run: seq<Event>, i: nat)
    requires Finished(End(c, run), i)
  {
    var t := End(c, run).tasks[i];
    forall j: nat :: StandsAt(LogOf(c, run), i, t.req, j) ==> t.pc.resp == SpecAnswer(c, CellAt(c, run, j), t.req)
  }

  /** The status report names the key id and the algorithm of the key that was active. */
  ghost predicate ReportedExactly(c: Gcm.Cipher, run: seq<Event>, i: nat)
    requires Finished(End(c, run), i)
  {
    var t := End(c, run).tasks[i];
    forall j: nat :: StandsAt(LogOf(c, run), i, t.req, j) ==>
      && t.pc.resp.Status?
      && t.pc.resp.report.activeKeyId == IdOf(CellAt(c, run, j))
      && t.pc.resp.report.activeProvider == AlgoOf(CellAt(c, run, j))
  }

  // ---- conditions on rotations ----

  predicate RotatesOnly(s: Sys, rotations: seq<Request>) {
    forall i :: 0 <= i < |s.tasks| && s.tasks[i].req.RotateKey? ==> s.tasks[i].req in rotations
  }

  /** The rotations among these that are accepted all name one algorithm. */
  predicate SameAlgorithm(c: Gcm.Cipher, rotations: seq<Request>) {
    forall a, b :: a in rotations && b in rotations && Prepared(c, a).Ok? && Prepared(c, b).Ok? ==>
      Prepared(c, a).value.algo == Prepared(c, b).value.algo
  }

  predicate AllOf(c: Gcm.Cipher, algo: AlgoId, rotations: seq<Request>) {
    forall r :: r in rotations ==> KeepsAlgorithm(c, algo, r)
  }

  lemma TheAlgorithm(c: Gcm.Cipher, rotations: seq<Request>) returns (algo: AlgoId)
    requires SameAlgorithm(c, rotations)
    ensures AllOf(c, algo, rotations)
  {
    if r :| r in rotations && Prepared(c, r).Ok? {
      algo := Prepared(c, r).value.algo;
    } else {
      algo := Aes256Gcm;
    }
  }

  lemma OnlyTheseArrive(c: Gcm.Cipher, algo: AlgoId, rotations: seq<Request>, run: seq<Event>)
    requires AllOf(c, algo, rotations) && RotatesOnly(End(c, run), rotations)
    ensures ArrivalsKeep(c, algo, run)
  {
    forall k | 0 <= k < |run| && run[k].Arrive? ensures KeepsAlgorithm(c, algo, run[k].req) {
      var i := ArrivedIsTask(DaemonHandler(c), IDLE, run, k);
    }
  }

  lemma SettledAtEnd(c: Gcm.Cipher, algo: AlgoId, rotations: seq<Request>, run: seq<Event>)
    requires AllOf(c, algo, rotations) && RotatesOnly(End(c, run), rotations)
    ensures Settled(c, algo, End(c, run)) && Steered(DaemonHandler(c), ExactAccount(c), IDLE, run)
  {
    OnlyTheseArrive(c, algo, rotations, run);
    DaemonOrderly(c);
    IdleSettled(c, algo);
    RunSettled(c, DaemonHandler(c), algo, IDLE, run);
  }

  // ---- answers ----

  lemma SameAlgorithmExact(c: Gcm.Cipher, rotations: seq<Request>, run: seq<Event>, i: nat)
    requires SameAlgorithm(c, rotations) && RotatesOnly(End(c, run), rotations)
    requires Finished(End(c, run), i) && !End(c, run).tasks[i].req.GetStatus?
    ensures AnsweredExactly(c, run, i)
  {
    var algo := TheAlgorithm(c, rotations);
    SettledAtEnd(c, algo, rotations, run);
    var j := OwnProvidersExact(c, run, i);
  }

  /** A task that holds a key has read it from the cell at its place in the log. */
  lemma KeyReadAt(c: Gcm.Cipher, mid: seq<Event>, run: seq<Event>, i: nat, key: KeyHandle) returns (j: nat)
    requires mid <= run && i < |End(c, mid).tasks| && End(c, mid).tasks[i].pc == UseWantProvider(key)
    ensures i < |End(c, run).tasks| && StandsAt(LogOf(c, run), i, End(c, run).tasks[i].req, j)
    ensures CellAt(c, run, j) == Some(key)
  {
    var h, a, rest := DaemonHandler(c), DaemonAccount(c), run[|mid|..];
    assert run == mid + rest;
    DaemonAccountSound(c);
    IdleExplained(c);
    FreelySteered(h, a, IDLE, mid);
    RunFromStart(h, a, IDLE, mid);
    j := FinishedStands(a, End(c, mid), LogOf(c, mid), i);
    ExecConcat(h, IDLE, mid, rest);
    ExecExtends(h, End(c, mid), rest);
    LogConcat(h, a, IDLE, mid, rest);
    ReplayPrefix(a, LogOf(c, mid), Log(h, a, End(c, mid), rest), j);
    OncePerTaskAtEnd(c, run);
  }

  lemma OncePerTaskAtEnd(c: Gcm.Cipher, run: seq<Event>)
    ensures OncePerTask(LogOf(c, run))
  {
    DaemonAccountSound(c);
    IdleExplained(c);
    FreelySteered(DaemonHandler(c), DaemonAccount(c), IDLE, run);
    RunFromStart(DaemonHandler(c), DaemonAccount(c), IDLE, run);
  }

  lemma TornRotatesOnly(s: Sys, rotations: seq<Request>, r1: Request, torn: Task, r2: Request, pc: Pc)
    requires r1 in rotations && r2 in rotations && !torn.req.RotateKey?
    requires s.tasks == [Task(r1, Done(Ack)), torn, Task(r2, pc)]
    ensures RotatesOnly(s, rotations)
  {
  }

  /** A torn encryption: the one-cell daemon would not have answered so. */
  lemma EncryptTorn(c: Gcm.Cipher, rotations: seq<Request>, r1: Request, r2: Request) returns (run: seq<Event>)
    requires r1 in rotations && r2 in rotations && Prepared(c, r1).Ok? && Prepared(c, r2).Ok?
    requires Prepared(c, r1).value.algo != Prepared(c, r2).value.algo
    ensures RotatesOnly(End(c, run), rotations)
    ensures Finished(End(c, run), 1) && End(c, run).tasks[1].req.Encrypt? && !AnsweredExactly(c, run, 1)
  {
    var first, mid;
    first, mid, run := EncryptCanTear(c, r1, r2, Frames.ZERO_NONCE, []);
    TornRotatesOnly(End(c, run), rotations, r1, End(c, run).tasks[1], r2, End(c, run).tasks[2].pc);
    var key := Prepared(c, r1).value;
    var j := KeyReadAt(c, mid, run, 1, key);
    OwnProviderSeals(c, key, Frames.ZERO_NONCE, [], Prepared(c, r2).value.algo);
  }

  lemma OwnProviderSeals(c: Gcm.Cipher, key: KeyHandle, nonce: seq<byte>, plaintext: seq<byte>, algo: AlgoId)
    ensures SpecAnswer(c, Some(key), Encrypt(nonce, [], plaintext))
            != Error(500, SealFailed(Wire.Crypto(AlgorithmMismatch(algo, key.algo))))
  {
  }

  /** Some bytes that are properly addressed to an algorithm. */
  function AnyFrame(algo: AlgoId): (frame: seq<byte>)
    ensures Frames.Addressed(Provider(Ring, algo), frame)
  {
    [0x41, 0x43, 1, 0, 0, 0, 0, 0, algo.ToByte(), 12, 0, 0] + Frames.ZERO_NONCE + Frames.SELF_TEST
  }

  lemma OwnProviderOpens(c: Gcm.Cipher, r: Request, frame: seq<byte>)
    requires Prepared(c, r).Ok? && Frames.Addressed(Provider(Ring, Prepared(c, r).value.algo), frame)
    ensures var spec := SpecAnswer(c, Some(Prepared(c, r).value), Decrypt(frame));
      spec.Plaintext? || (spec.Error? && spec.code == 401)
  {
    var key := Prepared(c, r).value;
    RotationVerdictExact(c, r.keyId, r.algo, r.material);
    DecryptVerdictExact(c, Provider(Ring, key.algo), key, frame);
  }

  /** A torn decryption: where the one-cell daemon opens the frame or says 401, this one says 422. */
  lemma DecryptTorn(c: Gcm.Cipher, rotations: seq<Request>, r1: Request, r2: Request, frame: seq<byte>)
    returns (run: seq<Event>, j: nat)
    requires r1 in rotations && r2 in rotations && Prepared(c, r1).Ok? && Prepared(c, r2).Ok?
    requires Prepared(c, r1).value.algo != Prepared(c, r2).value.algo
    requires Frames.Addressed(Provider(Ring, Prepared(c, r1).value.algo), frame)
    ensures RotatesOnly(End(c, run), rotations)
    ensures Finished(End(c, run), 1) && End(c, run).tasks[1].req == Decrypt(frame)
    ensures End(c, run).tasks[1].pc.resp.Error? && End(c, run).tasks[1].pc.resp.code == 422
    ensures StandsAt(LogOf(c, run), 1, Decrypt(frame), j)
    ensures var spec := SpecAnswer(c, CellAt(c, run, j), Decrypt(frame));
      spec.Plaintext? || (spec.Error? && spec.code == 401)
  {
    var first, mid;
    first, mid, run := DecryptCanTear(c, r1, r2, frame);
    TornRotatesOnly(End(c, run), rotations, r1, End(c, run).tasks[1], r2, End(c, run).tasks[2].pc);
    j := KeyReadAt(c, mid, run, 1, Prepared(c, r1).value);
    OwnProviderOpens(c, r1, frame);
  }

  ghost predicate AlwaysExact(c: Gcm.Cipher, rotations: seq<Request>, asked: Request -> bool) {
    forall run, i: nat ::
      (RotatesOnly(End(c, run), rotations) && Finished(End(c, run), i) && asked(End(c, run).tasks[i].req)) ==>
        AnsweredExactly(c, run, i)
  }

  predicate IsEncrypt(req: Request) { req.Encrypt? }
  predicate IsDecrypt(req: Request) { req.Decrypt? }
  predicate IsCommand(req: Request) { !req.GetStatus? }

  lemma SameAlgorithmAlwaysExact(c: Gcm.Cipher, rotations: seq<Request>, asked: Request -> bool)
    requires SameAlgorithm(c, rotations) && !asked(GetStatus)
    ensures AlwaysExact(c, rotations, asked)
  {
    forall run, i: nat | RotatesOnly(End(c, run), rotations) && Finished(End(c, run), i)
                         && asked(End(c, run).tasks[i].req)
      ensures AnsweredExactly(c, run, i)
    {
      SameAlgorithmExact(c, rotations, run, i);
    }
  }

  /** Whatever requests interleave with whatever overlapping rotations out of a given stock: encryptions
      are always answered exactly as by the one-cell daemon if and only if the accepted rotations of the
      stock name one algorithm; and the same for decryptions, and for all requests but status reports. */
  lemma ExactlyWhenOneAlgorithm(c: Gcm.Cipher, rotations: seq<Request>)
    ensures AlwaysExact(c, rotations, IsEncrypt) <==> SameAlgorithm(c, rotations)
    ensures AlwaysExact(c, rotations, IsDecrypt) <==> SameAlgorithm(c, rotations)
    ensures AlwaysExact(c, rotations, IsCommand) <==> SameAlgorithm(c, rotations)
  {
    if SameAlgorithm(c, rotations) {
      SameAlgorithmAlwaysExact(c, rotations, IsEncrypt);
      SameAlgorithmAlwaysExact(c, rotations, IsDecrypt);
      SameAlgorithmAlwaysExact(c, rotations, IsCommand);
    } else {
      var r1, r2 :| r1 in rotations && r2 in rotations && Prepared(c, r1).Ok? && Prepared(c, r2).Ok?
                    && Prepared(c, r1).value.algo != Prepared(c, r2).value.algo;
      var run := EncryptTorn(c, rotations, r1, r2);
      var run', j := DecryptTorn(c, rotations, r1, r2, AnyFrame(Prepared(c, r1).value.algo));
      assert !AnsweredExactly(c, run', 1);
    }
  }

  // ---- cells ----

  predicate AtRest(s: Sys) {
    forall i :: 0 <= i < |s.tasks| ==> !Rotating(s.tasks[i].pc)
  }

  /** Rotations of one algorithm, overlapping or not, keep the cells together: in every reachable state
      with an active key, and in every one with no rotation in flight. */
  lemma SameAlgorithmCoherent(c: Gcm.Cipher, rotations: seq<Request>, run: seq<Event>)
    requires SameAlgorithm(c, rotations) && RotatesOnly(End(c, run), rotations)
    ensures End(c, run).cells.key.Some? || AtRest(End(c, run)) ==> Coherent(End(c, run).cells)
  {
    var algo := TheAlgorithm(c, rotations);
    SettledAtEnd(c, algo, rotations, run);
  }

  ghost predicate AlwaysCoherent(c: Gcm.Cipher, rotations: seq<Request>) {
    forall run :: RotatesOnly(End(c, run), rotations) && AtRest(End(c, run)) ==> Coherent(End(c, run).cells)
  }

  lemma CellsMixed(c: Gcm.Cipher, rotations: seq<Request>, r1: Request, r2: Request) returns (run: seq<Event>)
    requires r1 in rotations && r2 in rotations && Prepared(c, r1).Ok? && Prepared(c, r2).Ok?
    requires Prepared(c, r1).value.algo != Prepared(c, r2).value.algo
    ensures RotatesOnly(End(c, run), rotations) && AtRest(End(c, run)) && !Coherent(End(c, run).cells)
  {
    run := OverlapMixesCells(c, r1, r2);
  }

  /** The cells are together in every state of every run with no rotation in flight if and only if the
      accepted rotations of the stock name one algorithm. */
  lemma CoherentExactlyWhenOneAlgorithm(c: Gcm.Cipher, rotations: seq<Request>)
    ensures AlwaysCoherent(c, rotations) <==> SameAlgorithm(c, rotations)
  {
    if SameAlgorithm(c, rotations) {
      forall run | RotatesOnly(End(c, run), rotations) && AtRest(End(c, run)) ensures Coherent(End(c, run).cells) {
        SameAlgorithmCoherent(c, rotations, run);
      }
    } else {
      var r1, r2 :| r1 in rotations && r2 in rotations && Prepared(c, r1).Ok? && Prepared(c, r2).Ok?
                    && Prepared(c, r1).value.algo != Prepared(c, r2).value.algo;
      var run := CellsMixed(c, rotations, r1, r2);
    }
  }

  /** Two acceptable rotations: some run acknowledges both, does nothing else, and leaves the cells apart
      if and only if their algorithms differ. */
  lemma OverlapExactlyWhenDifferent(c: Gcm.Cipher, r1: Request, r2: Request)
    requires Prepared(c, r1).Ok? && Prepared(c, r2).Ok?
    ensures (exists run :: End(c, run).tasks == [Task(r1, Done(Ack)), Task(r2, Done(Ack))]
                           && !Coherent(End(c, run).cells))
            <==> Prepared(c, r1).value.algo != Prepared(c, r2).value.algo
  {
    if Prepared(c, r1).value.algo != Prepared(c, r2).value.algo {
      var run := OverlapMixesCells(c, r1, r2);
      assert End(c, run).tasks == [Task(r1, Done(Ack)), Task(r2, Done(Ack))] && !Coherent(End(c, run).cells);
    } else {
      forall run | End(c, run).tasks == [Task(r1, Done(Ack)), Task(r2, Done(Ack))] ensures Coherent(End(c, run).cells) {
        SameAlgorithmCoherent(c, [r1, r2], run);
      }
    }
  }

  // ---- status reports ----

  /** Before any task has seen another algorithm than AES-256-GCM. */
  predicate OnlyDefault(s: Sys) {
    && s.cells.algo == Aes256Gcm
    && forall i :: 0 <= i < |s.tasks| ==> DefaultReport(s.tasks[i].pc)
  }

  predicate DefaultReport(pc: Pc) {
    match pc
    case RotateWant(_, key) => key.algo == Aes256Gcm
    case RotateHold(_, key) => key.algo == Aes256Gcm
    case StatusWantKey(algo) => algo == Aes256Gcm
    case StatusHoldKey(algo) => algo == Aes256Gcm
    case StatusLoad(_, report) => report.activeProvider == Aes256Gcm
    case UseCount(resp) => !resp.Status?
    case UseRelease(resp) => !resp.Status?
    case Done(resp) => resp.Status? ==> resp.report.activeProvider == Aes256Gcm
    case _ => true
  }

  ghost predicate KeepsDefault(c: Gcm.Cipher, h: Handler) {
    forall cells: Cells, req, pc, clock ::
      (Wants(pc).None? && !pc.Done? && KeepsAlgorithm(c, Aes256Gcm, req)
       && cells.algo == Aes256Gcm && DefaultReport(pc)) ==>
        var (cells', pc') := h(cells, req, pc, clock);
        cells'.algo == Aes256Gcm && DefaultReport(pc')
  }

  lemma DaemonKeepsDefault(c: Gcm.Cipher)
    ensures KeepsDefault(c, DaemonHandler(c))
  {
    forall cells: Cells, req, pc, clock: u64 | Wants(pc).None? && !pc.Done? && KeepsAlgorithm(c, Aes256Gcm, req)
                                               && cells.algo == Aes256Gcm && DefaultReport(pc)
      ensures var (cells', pc') := Act(c, cells, req, pc, clock); cells'.algo == Aes256Gcm && DefaultReport(pc')
    {
      if req.RotateKey? {
        RotationVerdictExact(c, req.keyId, req.algo, req.material);
      }
    }
  }

  lemma {:induction false} RunKeepsDefault(c: Gcm.Cipher, h: Handler, s: Sys, run: seq<Event>)
    requires KeepsDefault(c, h) && OnlyDefault(s) && ArrivalsKeep(c, Aes256Gcm, run)
    requires forall i :: 0 <= i < |s.tasks| ==> KeepsAlgorithm(c, Aes256Gcm, s.tasks[i].req)
    ensures OnlyDefault(Exec(h, s, run))
    decreases |run|
  {
    if run != [] {
      var s' := Apply(h, s, run[0]);
      assert OnlyDefault(s') by {
        if run[0].Run? && Enabled(s, run[0].task) {
          assert DefaultReport(s.tasks[run[0].task].pc);
        }
      }
      RunKeepsDefault(c, h, s', run[1..]);
    }
  }

  /** A replayed key is that of a logged rotation. */
  lemma {:induction false} ReplayedFromRotation(c: Gcm.Cipher, log: seq<Entry>, n: nat)
    requires n <= |log| && Replay(DaemonAccount(c), log, n).Some?
    ensures exists k :: 0 <= k < n && Prepared(c, log[k].req) == Ok(Replay(DaemonAccount(c), log, n).value)
  {
    if Prepared(c, log[n - 1].req).Err? {
      ReplayedFromRotation(c, log, n - 1);
    }
  }

  lemma CellFromRotation(c: Gcm.Cipher, run: seq<Event>, j: nat) returns (i: nat)
    requires j <= |LogOf(c, run)| && CellAt(c, run, j).Some?
    ensures i < |End(c, run).tasks| && Prepared(c, End(c, run).tasks[i].req) == Ok(CellAt(c, run, j).value)
  {
    var log := LogOf(c, run);
    ReplayedFromRotation(c, log, j);
    var k :| 0 <= k < j && Prepared(c, log[k].req) == Ok(CellAt(c, run, j).value);
    DaemonAccountSound(c);
    IdleExplained(c);
    FreelySteered(DaemonHandler(c), DaemonAccount(c), IDLE, run);
    RunFromStart(DaemonHandler(c), DaemonAccount(c), IDLE, run);
    assert EntryExplained(DaemonAccount(c), End(c, run), log, k);
    i := log[k].task;
  }

  lemma DefaultReportedExactly(c: Gcm.Cipher, rotations: seq<Request>, run: seq<Event>, i: nat)
    requires AllOf(c, Aes256Gcm, rotations) && RotatesOnly(End(c, run), rotations)
    requires Finished(End(c, run), i) && End(c, run).tasks[i].req.GetStatus?
    ensures ReportedExactly(c, run, i)
  {
    OnlyTheseArrive(c, Aes256Gcm, rotations, run);
    DaemonKeepsDefault(c);
    RunKeepsDefault(c, DaemonHandler(c), IDLE, run);
    assert DefaultReport(End(c, run).tasks[i].pc);
    var j := Linearizable(c, run, i);
    if CellAt(c, run, j).Some? {
      var k := CellFromRotation(c, run, j);
      assert End(c, run).tasks[k].req in rotations;
    }
  }

  lemma ReportMixed(c: Gcm.Cipher, rotations: seq<Request>, r: Request) returns (run: seq<Event>)
    requires r in rotations && Prepared(c, r).Ok? && Prepared(c, r).value.algo != Aes256Gcm
    ensures RotatesOnly(End(c, run), rotations)
    ensures Finished(End(c, run), 0) && End(c, run).tasks[0].req.GetStatus? && !ReportedExactly(c, run, 0)
  {
    run := StatusCanMix(c, r, 0);
    var j := Linearizable(c, run, 0);
    var i := CellFromRotation(c, run, j);
    assert Prepared(c, GetStatus).Err?;
  }

  ghost predicate AlwaysReportedExactly(c: Gcm.Cipher, rotations: seq<Request>) {
    forall run, i: nat ::
      (RotatesOnly(End(c, run), rotations) && Finished(End(c, run), i) && End(c, run).tasks[i].req.GetStatus?) ==>
        ReportedExactly(c, run, i)
  }

  /** Status reports always name the algorithm of the key whose id they name (of the start-up provider
      while there is none) if and only if every accepted rotation of the stock is to AES-256-GCM. */
  lemma ReportsExactlyWhenDefault(c: Gcm.Cipher, rotations: seq<Request>)
    ensures AlwaysReportedExactly(c, rotations) <==> AllOf(c, Aes256Gcm, rotations)
  {
    if AllOf(c, Aes256Gcm, rotations) {
      forall run, i: nat | RotatesOnly(End(c, run), rotations) && Finished(End(c, run), i)
                           && End(c, run).tasks[i].req.GetStatus?
        ensures ReportedExactly(c, run, i)
      {
        DefaultReportedExactly(c, rotations, run, i);
      }
    } else {
      var r :| r in rotations && !KeepsAlgorithm(c, Aes256Gcm, r);
      var run := ReportMixed(c, rotations, r);
    }
  }
}
