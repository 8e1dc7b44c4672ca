/** When provider, algorithm and key belong to one rotation, and how they can come apart. */
module Coherence {
  import opened Bytes
  import opened Crypto
  import opened Daemon
  import opened Interleaving
  import opened Linearizability
  import opened Providers
  import Frames
  import Gcm
  import Wire

  /** Provider, `active_algo` and active key agree; without a key, both are AES-256-GCM. */
  predicate Coherent(cells: Cells) {
    && cells.provider == Provider(Ring, cells.algo)
    && (if cells.key.Some? then cells.key.value.algo == cells.algo else cells.algo == Aes256Gcm)
  }

  /** On coherent cells the sequential daemon is the one-cell specification. */
  lemma CoherentIsAtomic(c: Gcm.Cipher, cells: Cells, req: Request, clock: u64)
    requires Coherent(cells)
    ensures var (after, resp) := Serve(c, cells, req, clock);
      Coherent(after) && after.key == AfterCell(c, cells.key, req) && Exactly(c, cells.key, req, resp)
  {
  }

  // ---- one rotation at a time ----

  predicate Rotating(pc: Pc) {
    pc.RotateWant? || pc.RotateHold?
  }

  predicate AtMostOneRotating(s: Sys) {
    forall i, j :: 0 <= i < j < |s.tasks| ==> !Rotating(s.tasks[i].pc) || !Rotating(s.tasks[j].pc)
  }

  /** At no point of the run are two rotations between their decision and their last write. */
  predicate SoloRotations(h: Handler, s: Sys, run: seq<Event>)
    decreases |run|
  {
    AtMostOneRotating(s) && (run == [] || SoloRotations(h, Apply(h, s, run[0]), run[1..]))
  }

  /** The cells a rotation has written so far carry its algorithm; before the first write all is coherent. */
  predicate WrittenSoFar(cells: Cells, m: Mutex, key: KeyHandle) {
    match m
    case ProviderM => Coherent(cells)
    case AlgoM => cells.provider == Provider(Ring, key.algo)
    case KeyM => cells.provider == Provider(Ring, key.algo) && cells.algo == key.algo
  }

  predicate CoherentSoFar(s: Sys) {
    && (forall i :: 0 <= i < |s.tasks| && Rotating(s.tasks[i].pc) ==>
          WrittenSoFar(s.cells, s.tasks[i].pc.m, s.tasks[i].pc.key))
    && ((forall i :: 0 <= i < |s.tasks| ==> !Rotating(s.tasks[i].pc)) ==> Coherent(s.cells))
  }

  /** Only a rotation that holds the mutex writes a cell, and it moves on to the next one. */
  ghost predicate WritesInOrder(h: Handler) {
    forall cells: Cells, req, pc, clock :: Wants(pc).None? && !pc.Done? ==>
      var (cells', pc') := h(cells, req, pc, clock);
      if pc.RotateHold? then
        && cells' == Write(cells, pc.m, pc.key)
        && match pc.m
           case ProviderM => pc' == RotateWant(AlgoM, pc.key)
           case AlgoM => pc' == RotateWant(KeyM, pc.key)
           case KeyM => !Rotating(pc')
      else
        && cells'.provider == cells.provider && cells'.algo == cells.algo && cells'.key == cells.key
        && (Rotating(pc') ==> pc == Start && pc'.RotateWant? && pc'.m == ProviderM)
  }

  lemma DaemonWritesInOrder(c: Gcm.Cipher)
    ensures WritesInOrder(DaemonHandler(c))
  {
    forall cells: Cells, req, pc, clock: u64 | Wants(pc).None? && !pc.Done?
      ensures var (cells', pc') := Act(c, cells, req, pc, clock);
        if pc.RotateHold? then
          && cells' == Write(cells, pc.m, pc.key)
          && match pc.m
             case ProviderM => pc' == RotateWant(AlgoM, pc.key)
             case AlgoM => pc' == RotateWant(KeyM, pc.key)
             case KeyM => !Rotating(pc')
        else
          && cells'.provider == cells.provider && cells'.algo == cells.algo && cells'.key == cells.key
          && (Rotating(pc') ==> pc == Start && pc'.RotateWant? && pc'.m == ProviderM)
    {
    }
  }

  lemma StepCoherent(h: Handler, s: Sys, i: nat, clock: u64)
    requires WritesInOrder(h) && CoherentSoFar(s) && Enabled(s, i)
    requires AtMostOneRotating(s) && AtMostOneRotating(Step(h, s, i, clock))
    ensures CoherentSoFar(Step(h, s, i, clock))
  {
    var s' := Step(h, s, i, clock);
    assert forall j :: 0 <= j < |s.tasks| && j != i ==> s'.tasks[j] == s.tasks[j];
    assert Rotating(s'.tasks[i].pc) && !Rotating(s.tasks[i].pc) ==>
      forall j :: 0 <= j < |s.tasks| ==> !Rotating(s.tasks[j].pc);
  }

  /** If rotations never overlap each other, then whatever else is interleaved with them, provider,
      `active_algo` and active key agree in every state in which no rotation is in flight. */
  lemma {:induction false} SoloRunsStayCoherent(h: Handler, s: Sys, run: seq<Event>)
    requires WritesInOrder(h) && CoherentSoFar(s) && SoloRotations(h, s, run)
    ensures CoherentSoFar(Exec(h, s, run))
    decreases |run|
  {
    if run != [] {
      if run[0].Arrive? {
        assert forall i :: 0 <= i < |s.tasks| ==> Apply(h, s, run[0]).tasks[i] == s.tasks[i];
      } else if Enabled(s, run[0].task) {
        StepCoherent(h, s, run[0].task, run[0].clock);
      }
      SoloRunsStayCoherent(h, Apply(h, s, run[0]), run[1..]);
    }
  }

  // ---- how the cells come apart ----

  function AfterWrite(m: Mutex, key: KeyHandle): Pc {
    match m
    case ProviderM => RotateWant(AlgoM, key)
    case AlgoM => RotateWant(KeyM, key)
    case KeyM => Done(Ack)
  }

  /** Prolongs a run by two operations of one rotation, with nothing in between: one cell is written. */
  lemma WriteCell(c: Gcm.Cipher, run: seq<Event>, s: Sys, i: nat) returns (longer: seq<Event>, s': Sys)
    requires Exec(DaemonHandler(c), IDLE, run) == s
    requires i < |s.tasks| && s.tasks[i].pc.RotateWant? && s.tasks[i].pc.m !in s.held
    ensures longer == run + [Run(i, 0), Run(i, 0)] && Exec(DaemonHandler(c), IDLE, longer) == s'
    ensures var pc := s.tasks[i].pc;
      s' == Sys(Write(s.cells, pc.m, pc.key), s.held, s.tasks[i := s.tasks[i].(pc := AfterWrite(pc.m, pc.key))])
  {
    var h, t := DaemonHandler(c), s.tasks[i];
    var s1 := Apply(h, s, Run(i, 0));
    assert s1.tasks[i].pc == RotateHold(t.pc.m, t.pc.key);
    s' := Apply(h, s1, Run(i, 0));
    assert s1.held - {t.pc.m} == s.held;
    assert [Run(i, 0), Run(i, 0)][1..] == [Run(i, 0)];
    assert Exec(h, s1, [Run(i, 0)]) == s';
    longer := run + [Run(i, 0), Run(i, 0)];
    ExecConcat(h, IDLE, run, [Run(i, 0), Run(i, 0)]);
  }

  /** Prolongs a run by all three writes of a rotation, with nothing in between. */
  lemma FinishRotation(c: Gcm.Cipher, run: seq<Event>, s: Sys, i: nat) returns (longer: seq<Event>, s': Sys)
    requires Exec(DaemonHandler(c), IDLE, run) == s && s.held == map[]
    requires i < |s.tasks| && s.tasks[i].pc.RotateWant? && s.tasks[i].pc.m == ProviderM
    ensures run <= longer && Exec(DaemonHandler(c), IDLE, longer) == s'
    ensures var key := s.tasks[i].pc.key;
      s' == Sys(s.cells.(provider := Provider(Ring, key.algo), algo := key.algo, key := Some(key)), map[],
                s.tasks[i := s.tasks[i].(pc := Done(Ack))])
  {
    longer, s' := WriteCell(c, run, s, i);
    longer, s' := WriteCell(c, longer, s', i);
    longer, s' := WriteCell(c, longer, s', i);
  }

  /** Prolongs a run by one event. */
  lemma OneMore(h: Handler, run: seq<Event>, e: Event) returns (longer: seq<Event>, s': Sys)
    ensures longer == run + [e]
    ensures s' == Apply(h, Exec(h, IDLE, run), e) == Exec(h, IDLE, longer)
  {
    longer, s' := run + [e], Apply(h, Exec(h, IDLE, run), e);
    ExecConcat(h, IDLE, run, [e]);
    assert [e][1..] == [];
  }

  /** A rotation has arrived and decided; it is about to wait for the provider mutex. */
  lemma BeginRotation(c: Gcm.Cipher, run: seq<Event>, s: Sys, req: Request) returns (longer: seq<Event>, s': Sys)
    requires Exec(DaemonHandler(c), IDLE, run) == s && Prepared(c, req).Ok?
    ensures longer == run + [Arrive(req), Run(|s.tasks|, 0)] && Exec(DaemonHandler(c), IDLE, longer) == s'
    ensures s' == Sys(s.cells, s.held, s.tasks + [Task(req, RotateWant(ProviderM, Prepared(c, req).value))])
  {
    var h := DaemonHandler(c);
    longer, s' := OneMore(h, run, Arrive(req));
    longer, s' := OneMore(h, longer, Run(|s.tasks|, 0));
    assert longer == run + [Arrive(req), Run(|s.tasks|, 0)];
  }

  /** Two overlapping rotations can both be acknowledged and leave the provider of one with the key
      of the other. */
  lemma OverlapMixesCells(c: Gcm.Cipher, r1: Request, r2: Request) returns (run: seq<Event>)
    requires Prepared(c, r1).Ok? && Prepared(c, r2).Ok?
    ensures var k1, k2 := Prepared(c, r1).value, Prepared(c, r2).value;
      var end := Exec(DaemonHandler(c), IDLE, run);
      && end.tasks == [Task(r1, Done(Ack)), Task(r2, Done(Ack))]
      && end.cells == INITIAL.(provider := Provider(Ring, k2.algo), algo := k1.algo, key := Some(k1))
      && (Coherent(end.cells) <==> k1.algo == k2.algo)
  {
    var s := IDLE;
    run := [];
    run, s := BeginRotation(c, run, s, r1);
    run, s := BeginRotation(c, run, s, r2);
    run, s := WriteCell(c, run, s, 0);
    run, s := FinishRotation(c, run, s, 1);
    run, s := WriteCell(c, run, s, 0);
    run, s := WriteCell(c, run, s, 0);
  }

  lemma RotateAlone(c: Gcm.Cipher, run: seq<Event>, s: Sys, req: Request) returns (longer: seq<Event>, s': Sys)
    requires Exec(DaemonHandler(c), IDLE, run) == s && s.held == map[] && Prepared(c, req).Ok?
    ensures run <= longer && Exec(DaemonHandler(c), IDLE, longer) == s'
    ensures var key := Prepared(c, req).value;
      s' == Sys(s.cells.(provider := Provider(Ring, key.algo), algo := key.algo, key := Some(key)), map[],
                s.tasks + [Task(req, Done(Ack))])
  {
    longer, s' := BeginRotation(c, run, s, req);
    longer, s' := FinishRotation(c, longer, s', |s.tasks|);
  }

  /** An `Encrypt` or `Decrypt` arrives and reads the key; it is about to wait for the provider mutex. */
  lemma ReadKey(c: Gcm.Cipher, run: seq<Event>, s: Sys, req: Request) returns (longer: seq<Event>, s': Sys)
    requires Exec(DaemonHandler(c), IDLE, run) == s && s.held == map[]
    requires s.cells.key.Some? && (req.Encrypt? || req.Decrypt?)
    ensures run <= longer && Exec(DaemonHandler(c), IDLE, longer) == s'
    ensures s' == Sys(s.cells, map[], s.tasks + [Task(req, UseWantProvider(s.cells.key.value))])
  {
    var h, n := DaemonHandler(c), |s.tasks|;
    longer, s' := OneMore(h, run, Arrive(req));
    longer, s' := OneMore(h, longer, Run(n, 0));
    longer, s' := OneMore(h, longer, Run(n, 0));
    assert s' == Sys(s.cells, map[KeyM := n], s.tasks + [Task(req, UseHoldKey)]);
    longer, s' := OneMore(h, longer, Run(n, 0));
  }

  /** A task that has read its key takes the provider and answers. */
  lemma UseProvider(c: Gcm.Cipher, run: seq<Event>, s: Sys, i: nat) returns (longer: seq<Event>, s': Sys)
    requires Exec(DaemonHandler(c), IDLE, run) == s && s.held == map[]
    requires i < |s.tasks| && s.tasks[i].pc.UseWantProvider?
    ensures run <= longer && Exec(DaemonHandler(c), IDLE, longer) == s'
    ensures var t, resp := s.tasks[i], Answer(c, s.cells.provider, s.tasks[i].pc.key, s.tasks[i].req);
      s' == Sys(Count(s.cells, resp), map[], s.tasks[i := t.(pc := Done(resp))])
  {
    var h, t := DaemonHandler(c), s.tasks[i];
    longer, s' := OneMore(h, run, Run(i, 0));
    assert s' == Sys(s.cells, map[ProviderM := i], s.tasks[i := t.(pc := UseHoldProvider(t.pc.key))]);
    longer, s' := OneMore(h, longer, Run(i, 0));
    longer, s' := OneMore(h, longer, Run(i, 0));
    longer, s' := OneMore(h, longer, Run(i, 0));
  }

  /** A rotation arrives and has the provider written, but no more. */
  lemma TakeProvider(c: Gcm.Cipher, run: seq<Event>, s: Sys, req: Request) returns (longer: seq<Event>, s': Sys)
    requires Exec(DaemonHandler(c), IDLE, run) == s && s.held == map[] && Prepared(c, req).Ok?
    ensures run <= longer && Exec(DaemonHandler(c), IDLE, longer) == s'
    ensures var key := Prepared(c, req).value;
      s' == Sys(s.cells.(provider := Provider(Ring, key.algo)), map[], s.tasks + [Task(req, RotateWant(AlgoM, key))])
  {
    longer, s' := BeginRotation(c, run, s, req);
    longer, s' := WriteCell(c, longer, s', |s.tasks|);
  }

  /** One rotation strictly after another, and a request between them that read the key of the first and
      finds the provider of the second, although a key was active all along. */
  lemma TearRun(c: Gcm.Cipher, r1: Request, r2: Request, req: Request)
    returns (first: seq<Event>, mid: seq<Event>, run: seq<Event>)
    requires Prepared(c, r1).Ok? && Prepared(c, r2).Ok? && (req.Encrypt? || req.Decrypt?)
    ensures first <= mid <= run && Exec(DaemonHandler(c), IDLE, first).tasks == [Task(r1, Done(Ack))]
    ensures var k1, k2 := Prepared(c, r1).value, Prepared(c, r2).value;
      && Exec(DaemonHandler(c), IDLE, mid).tasks == [Task(r1, Done(Ack)), Task(req, UseWantProvider(k1))]
      && Exec(DaemonHandler(c), IDLE, run).tasks
         == [Task(r1, Done(Ack)), Task(req, Done(Answer(c, Provider(Ring, k2.algo), k1, req))),
             Task(r2, RotateWant(AlgoM, k2))]
  {
    var s := IDLE;
    first, s := RotateAlone(c, [], s, r1);
    mid, s := ReadKey(c, first, s, req);
    run, s := TakeProvider(c, mid, s, r2);
    run, s := UseProvider(c, run, s, 1);
  }

  /** If the algorithms differ, an encryption so torn is answered 500, with an algorithm mismatch. */
  lemma EncryptCanTear(c: Gcm.Cipher, r1: Request, r2: Request, nonce: seq<byte>, plaintext: seq<byte>)
    returns (first: seq<Event>, mid: seq<Event>, run: seq<Event>)
    requires Prepared(c, r1).Ok? && Prepared(c, r2).Ok? && |nonce| == 12
    requires Prepared(c, r1).value.algo != Prepared(c, r2).value.algo
    ensures first <= mid <= run && Exec(DaemonHandler(c), IDLE, first).tasks == [Task(r1, Done(Ack))]
    ensures var k1, k2, req := Prepared(c, r1).value, Prepared(c, r2).value, Encrypt(nonce, [], plaintext);
      && Exec(DaemonHandler(c), IDLE, mid).tasks == [Task(r1, Done(Ack)), Task(req, UseWantProvider(k1))]
      && Exec(DaemonHandler(c), IDLE, run).tasks
         == [Task(r1, Done(Ack)),
             Task(req, Done(Error(500, SealFailed(Wire.Crypto(AlgorithmMismatch(k2.algo, k1.algo)))))),
             Task(r2, RotateWant(AlgoM, k2))]
  {
    first, mid, run := TearRun(c, r1, r2, Encrypt(nonce, [], plaintext));
    WrongProviderSeals(c, Prepared(c, r2).value.algo, Prepared(c, r1).value, nonce, plaintext);
  }

  lemma WrongProviderSeals(c: Gcm.Cipher, algo: AlgoId, key: KeyHandle, nonce: seq<byte>, plaintext: seq<byte>)
    requires algo != key.algo && |nonce| == 12
    ensures EncryptAnswer(c, Provider(Ring, algo), key, nonce, plaintext)
         == Error(500, SealFailed(Wire.Crypto(AlgorithmMismatch(algo, key.algo))))
  {
  }

  /** A decryption so torn, of any frame addressed to the key's algorithm, is answered 422, although the
      frame may be one that the key opens. */
  lemma DecryptCanTear(c: Gcm.Cipher, r1: Request, r2: Request, frame: seq<byte>)
    returns (first: seq<Event>, mid: seq<Event>, run: seq<Event>)
    requires Prepared(c, r1).Ok? && Prepared(c, r2).Ok?
    requires Prepared(c, r1).value.algo != Prepared(c, r2).value.algo
    requires Frames.Addressed(Provider(Ring, Prepared(c, r1).value.algo), frame)
    ensures first <= mid <= run && Exec(DaemonHandler(c), IDLE, first).tasks == [Task(r1, Done(Ack))]
    ensures var k1, k2 := Prepared(c, r1).value, Prepared(c, r2).value;
      && Exec(DaemonHandler(c), IDLE, mid).tasks == [Task(r1, Done(Ack)), Task(Decrypt(frame), UseWantProvider(k1))]
      && Exec(DaemonHandler(c), IDLE, run).tasks
         == [Task(r1, Done(Ack)),
             Task(Decrypt(frame), Done(Error(422, OpenFailed(Wire.Crypto(AlgorithmMismatch(k2.algo, k1.algo)))))),
             Task(r2, RotateWant(AlgoM, k2))]
  {
    first, mid, run := TearRun(c, r1, r2, Decrypt(frame));
    WrongProviderOpens(c, Prepared(c, r2).value.algo, Prepared(c, r1).value, frame);
  }

  lemma WrongProviderOpens(c: Gcm.Cipher, algo: AlgoId, key: KeyHandle, frame: seq<byte>)
    requires algo != key.algo && Frames.Addressed(Provider(Ring, key.algo), frame)
    ensures DecryptAnswer(c, Provider(Ring, algo), key, frame)
         == Error(422, OpenFailed(Wire.Crypto(AlgorithmMismatch(algo, key.algo))))
  {
    AlgoByteBijection(frame[8], key.algo);
  }
}
