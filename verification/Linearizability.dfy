/** The three-cell daemon refines a daemon with one atomic cell. A rotation takes effect when it
    writes the key cell and every other request when it reads it; replaying the requests in that
    order, one at a time, explains every answer of every interleaving. */
module Linearizability {
  import opened Bytes
  import opened Crypto
  import opened Daemon
  import opened Interleaving
  import opened Providers
  import Frames
  import Gcm
  import Wire

  // ---- the specification: one cell, one request at a time ----

  function AfterCell(c: Gcm.Cipher, cell: Option<KeyHandle>, req: Request): Option<KeyHandle> {
    if req.RotateKey? && Prepared(c, req).Ok? then Some(Prepared(c, req).value) else cell
  }

  /** The atomic answer; a status report is specified by its key id alone. */
  function SpecAnswer(c: Gcm.Cipher, cell: Option<KeyHandle>, req: Request): Response {
    match req
    case GetStatus => Status(StatusReport(0, Aes256Gcm, IdOf(cell), 0, 0, 0))
    case SetPolicy(_) => Ack
    case RotateKey(_, _, _) => (match Prepared(c, req) case Ok(_) => Ack case Err(resp) => resp)
    case _ =>
      if cell.None? then Error(409, NoActiveKey)
      else Answer(c, Provider(Ring, cell.value.algo), cell.value, req)
  }

  /** An answer that failed because the provider found was not of the key's algorithm. */
  predicate Mismatch(req: Request, resp: Response) {
    match resp
    case Error(500, SealFailed(Crypto(AlgorithmMismatch(_, _)))) => req.Encrypt?
    case Error(422, OpenFailed(Crypto(AlgorithmMismatch(_, _)))) => req.Decrypt?
    case _ => false
  }

  /** The implementation's answer against the specification's: the same, or an algorithm mismatch,
      or both of them 422 (whose messages may name different algorithms). */
  predicate Agrees(c: Gcm.Cipher, cell: Option<KeyHandle>, req: Request, resp: Response) {
    var spec := SpecAnswer(c, cell, req);
    if req.GetStatus? then resp.Status? && resp.report.activeKeyId == spec.report.activeKeyId
    else
      || resp == spec
      || Mismatch(req, resp)
      || (resp.Error? && spec.Error? && resp.code == spec.code == 422 && cell.Some?)
  }

  lemma AnswerAgrees(c: Gcm.Cipher, p: Provider, key: KeyHandle, req: Request)
    requires p.backend == Ring && (req.Encrypt? || req.Decrypt?)
    ensures Agrees(c, Some(key), req, Answer(c, p, key, req))
    ensures p.algo == key.algo ==> Answer(c, p, key, req) == SpecAnswer(c, Some(key), req)
  {
    if p.algo == key.algo {
      assert p == Provider(Ring, key.algo);
    }
  }

  // ---- a linearization argument for any handler ----

  datatype Entry = Entry(task: nat, req: Request)

  /** What the cells always satisfy, what holds whenever an operation is carried out, which operations
      are linearization points, what those do to the cell, and what is known of a task before its point
      and, from the cell contents it saw there, after it. */
  datatype Account = Account(
    inv: Cells -> bool,
    allows: (Cells, Request, Pc) -> bool,
    commits: (Request, Pc) -> bool,
    after: (Option<KeyHandle>, Request) -> Option<KeyHandle>,
    before: (Request, Pc) -> bool,
    explains: (Option<KeyHandle>, Request, Pc) -> bool)

  ghost predicate SoundBefore(h: Handler, a: Account) {
    forall cells: Cells, req, pc, clock ::
      Wants(pc).None? && !pc.Done? && a.inv(cells) && a.allows(cells, req, pc) && a.before(req, pc) ==>
        var (cells', pc') := h(cells, req, pc, clock);
        && a.inv(cells')
        && if a.commits(req, pc)
           then a.explains(cells.key, req, pc') && cells'.key == a.after(cells.key, req)
           else a.before(req, pc') && cells'.key == cells.key
  }

  ghost predicate SoundAfter(h: Handler, a: Account) {
    forall cell, cells: Cells, req, pc, clock ::
      Wants(pc).None? && !pc.Done? && a.inv(cells) && a.allows(cells, req, pc) && a.explains(cell, req, pc) ==>
        var (cells', pc') := h(cells, req, pc, clock);
        && a.inv(cells')
        && a.explains(cell, req, pc') && cells'.key == cells.key && !a.commits(req, pc)
  }

  ghost predicate Sound(h: Handler, a: Account) {
    && SoundBefore(h, a)
    && SoundAfter(h, a)
    && (forall req :: a.before(req, Start))
    && (forall req, pc :: Wants(pc).Some? ==> !a.commits(req, pc))
    && (forall req, pc :: Wants(pc).Some? && a.before(req, pc) ==> a.before(req, Acquired(pc)))
    && (forall cell, req, pc :: Wants(pc).Some? && a.explains(cell, req, pc) ==> a.explains(cell, req, Acquired(pc)))
  }

  /** The operation that `e` makes a task carry out, if any, is allowed. */
  predicate Allowed(a: Account, s: Sys, e: Event) {
    e.Run? && Enabled(s, e.task) && Wants(s.tasks[e.task].pc).None? ==>
      a.allows(s.cells, s.tasks[e.task].req, s.tasks[e.task].pc)
  }

  /** Every operation of the run is. */
  predicate Steered(h: Handler, a: Account, s: Sys, run: seq<Event>)
    decreases |run|
  {
    run == [] || (Allowed(a, s, run[0]) && Steered(h, a, Apply(h, s, run[0]), run[1..]))
  }

  lemma {:induction false} SteeredPrefix(h: Handler, a: Account, s: Sys, first: seq<Event>, second: seq<Event>)
    requires Steered(h, a, s, first + second)
    ensures Steered(h, a, s, first)
    decreases |first|
  {
    if first != [] {
      assert (first + second)[0] == first[0] && (first + second)[1..] == first[1..] + second;
      SteeredPrefix(h, a, Apply(h, s, first[0]), first[1..], second);
    }
  }

  lemma {:induction false} FreelySteered(h: Handler, a: Account, s: Sys, run: seq<Event>)
    requires forall cells, req, pc :: a.allows(cells, req, pc)
    ensures Steered(h, a, s, run)
    decreases |run|
  {
    if run != [] {
      FreelySteered(h, a, Apply(h, s, run[0]), run[1..]);
    }
  }

  predicate Commits(a: Account, s: Sys, e: Event) {
    e.Run? && Enabled(s, e.task) && a.commits(s.tasks[e.task].req, s.tasks[e.task].pc)
  }

  /** The requests of a run in the order in which they take effect. */
  function Log(h: Handler, a: Account, s: Sys, run: seq<Event>): seq<Entry>
    decreases |run|
  {
    if run == [] then []
    else
      (if Commits(a, s, run[0]) then [Entry(run[0].task, s.tasks[run[0].task].req)] else [])
      + Log(h, a, Apply(h, s, run[0]), run[1..])
  }

  /** The cell after the first `n` requests of the log, replayed one at a time. */
  function Replay(a: Account, log: seq<Entry>, n: nat): Option<KeyHandle>
    requires n <= |log|
  {
    if n == 0 then None else a.after(Replay(a, log, n - 1), log[n - 1].req)
  }

  lemma {:induction false} ReplayPrefix(a: Account, log: seq<Entry>, more: seq<Entry>, n: nat)
    requires n <= |log|
    ensures Replay(a, log + more, n) == Replay(a, log, n)
  {
    if n > 0 {
      ReplayPrefix(a, log, more, n - 1);
    }
  }

  predicate Logged(log: seq<Entry>, i: nat) {
    exists j :: 0 <= j < |log| && log[j].task == i
  }

  predicate OncePerTask(log: seq<Entry>) {
    forall j, k :: 0 <= j < k < |log| ==> log[j].task != log[k].task
  }

  predicate EntryExplained(a: Account, s: Sys, log: seq<Entry>, j: nat)
    requires j < |log|
  {
    && log[j].task < |s.tasks|
    && log[j].req == s.tasks[log[j].task].req
    && a.explains(Replay(a, log, j), log[j].req, s.tasks[log[j].task].pc)
  }

  predicate TaskExplained(a: Account, s: Sys, log: seq<Entry>, i: nat)
    requires i < |s.tasks|
  {
    Logged(log, i) || a.before(s.tasks[i].req, s.tasks[i].pc)
  }

  ghost predicate Explained(a: Account, s: Sys, log: seq<Entry>) {
    && a.inv(s.cells)
    && s.cells.key == Replay(a, log, |log|)
    && OncePerTask(log)
    && (forall j :: 0 <= j < |log| ==> EntryExplained(a, s, log, j))
    && (forall i :: 0 <= i < |s.tasks| ==> TaskExplained(a, s, log, i))
  }

  lemma CommitExplained(h: Handler, a: Account, s: Sys, log: seq<Entry>, i: nat, clock: u64)
    requires Sound(h, a) && Explained(a, s, log) && Enabled(s, i)
    requires Allowed(a, s, Run(i, clock))
    requires !Logged(log, i) && a.commits(s.tasks[i].req, s.tasks[i].pc)
    ensures Explained(a, Step(h, s, i, clock), log + [Entry(i, s.tasks[i].req)])
  {
    var e := Entry(i, s.tasks[i].req);
    var log', s' := log + [e], Step(h, s, i, clock);
    assert TaskExplained(a, s, log, i);
    ReplayPrefix(a, log, [e], |log|);
    assert log'[|log|] == e;
    forall j | 0 <= j < |log'| ensures EntryExplained(a, s', log', j) {
      if j < |log| {
        ReplayPrefix(a, log, [e], j);
        assert EntryExplained(a, s, log, j) && log[j].task != i;
      }
    }
    forall k | 0 <= k < |s'.tasks| ensures TaskExplained(a, s', log', k) {
      assert TaskExplained(a, s, log, k);
      if j :| 0 <= j < |log| && log[j].task == k {
        assert log'[j].task == k;
      }
    }
  }

  lemma PlainStepExplained(h: Handler, a: Account, s: Sys, log: seq<Entry>, i: nat, clock: u64)
    requires Sound(h, a) && Explained(a, s, log) && Enabled(s, i)
    requires Allowed(a, s, Run(i, clock))
    requires Logged(log, i) || !a.commits(s.tasks[i].req, s.tasks[i].pc)
    ensures Explained(a, Step(h, s, i, clock), log)
    ensures !a.commits(s.tasks[i].req, s.tasks[i].pc)
  {
    var s' := Step(h, s, i, clock);
    assert TaskExplained(a, s, log, i);
    if j :| 0 <= j < |log| && log[j].task == i {
      assert EntryExplained(a, s, log, j);
    }
    forall j | 0 <= j < |log| ensures EntryExplained(a, s', log, j) {
      assert EntryExplained(a, s, log, j);
    }
    forall k | 0 <= k < |s'.tasks| ensures TaskExplained(a, s', log, k) {
      assert TaskExplained(a, s, log, k);
    }
  }

  lemma ArrivalExplained(h: Handler, a: Account, s: Sys, log: seq<Entry>, req: Request)
    requires Sound(h, a) && Explained(a, s, log)
    ensures Explained(a, Apply(h, s, Arrive(req)), log)
  {
    var s' := Apply(h, s, Arrive(req));
    forall j | 0 <= j < |log| ensures EntryExplained(a, s', log, j) {
      assert EntryExplained(a, s, log, j);
    }
    forall k | 0 <= k < |s'.tasks| ensures TaskExplained(a, s', log, k) {
      if k < |s.tasks| {
        assert TaskExplained(a, s, log, k);
      }
    }
  }

  lemma {:induction false} RunExplained(h: Handler, a: Account, s: Sys, log: seq<Entry>, run: seq<Event>)
    requires Sound(h, a) && Explained(a, s, log) && Steered(h, a, s, run)
    ensures Explained(a, Exec(h, s, run), log + Log(h, a, s, run))
    decreases |run|
  {
    if run == [] {
      assert log + [] == log;
    } else {
      var e := run[0];
      var now := if Commits(a, s, e) then [Entry(e.task, s.tasks[e.task].req)] else [];
      if e.Arrive? {
        ArrivalExplained(h, a, s, log, e.req);
      } else if Enabled(s, e.task) {
        if Logged(log, e.task) || now == [] {
          PlainStepExplained(h, a, s, log, e.task, e.clock);
        } else {
          CommitExplained(h, a, s, log, e.task, e.clock);
        }
      }
      assert log + [] == log;
      RunExplained(h, a, Apply(h, s, e), log + now, run[1..]);
      assert log + Log(h, a, s, run) == log + now + Log(h, a, Apply(h, s, e), run[1..]);
    }
  }

  lemma {:induction false} LogConcat(h: Handler, a: Account, s: Sys, first: seq<Event>, second: seq<Event>)
    ensures Log(h, a, s, first + second) == Log(h, a, s, first) + Log(h, a, Exec(h, s, first), second)
    decreases |first|
  {
    if first == [] {
      assert first + second == second;
    } else {
      assert (first + second)[0] == first[0] && (first + second)[1..] == first[1..] + second;
      LogConcat(h, a, Apply(h, s, first[0]), first[1..], second);
    }
  }

  /** A task past its linearization point stands in the log at exactly one place. */
  predicate StandsAt(log: seq<Entry>, i: nat, req: Request, j: nat) {
    && j < |log| && log[j] == Entry(i, req)
    && forall k :: 0 <= k < |log| && log[k].task == i ==> k == j
  }

  lemma FinishedStands(a: Account, s: Sys, log: seq<Entry>, i: nat) returns (j: nat)
    requires Explained(a, s, log)
    requires i < |s.tasks| && !a.before(s.tasks[i].req, s.tasks[i].pc)
    ensures StandsAt(log, i, s.tasks[i].req, j)
    ensures a.explains(Replay(a, log, j), s.tasks[i].req, s.tasks[i].pc)
  {
    assert TaskExplained(a, s, log, i);
    j :| 0 <= j < |log| && log[j].task == i;
    assert EntryExplained(a, s, log, j);
  }

  lemma ArrivedLaterNotLogged(a: Account, s: Sys, log: seq<Entry>, k: nat)
    requires Explained(a, s, log) && k < |log|
    ensures log[k].task < |s.tasks|
  {
    assert EntryExplained(a, s, log, k);
  }

  lemma RunFromStart(h: Handler, a: Account, s: Sys, run: seq<Event>)
    requires Sound(h, a) && Explained(a, s, []) && Steered(h, a, s, run)
    ensures Explained(a, Exec(h, s, run), Log(h, a, s, run))
  {
    RunExplained(h, a, s, [], run);
    assert [] + Log(h, a, s, run) == Log(h, a, s, run);
  }

  lemma FinishedAtEnd(h: Handler, a: Account, s: Sys, run: seq<Event>, i: nat) returns (j: nat)
    requires Sound(h, a) && Explained(a, s, []) && Steered(h, a, s, run)
    requires var end := Exec(h, s, run); i < |end.tasks| && !a.before(end.tasks[i].req, end.tasks[i].pc)
    ensures var log, t := Log(h, a, s, run), Exec(h, s, run).tasks[i];
      StandsAt(log, i, t.req, j) && a.explains(Replay(a, log, j), t.req, t.pc)
  {
    RunFromStart(h, a, s, run);
    j := FinishedStands(a, Exec(h, s, run), Log(h, a, s, run), i);
  }

  /** The log respects real time: a request that has finished before another arrives precedes it. */
  lemma RealTimeOrder(h: Handler, a: Account, s: Sys, first: seq<Event>, second: seq<Event>, i: nat, j: nat, k: nat)
    requires Sound(h, a) && Explained(a, s, []) && Steered(h, a, s, first + second)
    requires var mid := Exec(h, s, first); i < |mid.tasks| && !a.before(mid.tasks[i].req, mid.tasks[i].pc)
    requires var log := Log(h, a, s, first + second);
      j < |log| && k < |log| && log[j].task == i && log[k].task >= |Exec(h, s, first).tasks|
    ensures j < k
  {
    var log, early, mid := Log(h, a, s, first + second), Log(h, a, s, first), Exec(h, s, first);
    LogConcat(h, a, s, first, second);
    SteeredPrefix(h, a, s, first, second);
    RunFromStart(h, a, s, first);
    RunFromStart(h, a, s, first + second);
    var n := FinishedStands(a, mid, early, i);
    assert log[n] == early[n];
    assert k < |early| ==> log[k] == early[k];
    if k < |early| {
      ArrivedLaterNotLogged(a, mid, early, k);
    }
  }

  // ---- the daemon's account ----

  predicate CommitPoint(c: Gcm.Cipher, req: Request, pc: Pc) {
    match pc
    case Start => req.SetPolicy? || (req.RotateKey? && Prepared(c, req).Err?)
    case RotateHold(m, _) => m == KeyM
    case UseHoldKey => true
    case StatusHoldKey(_) => true
    case _ => false
  }

  predicate Uncommitted(c: Gcm.Cipher, req: Request, pc: Pc) {
    match pc
    case Start => true
    case RotateWant(_, key) => req.RotateKey? && Prepared(c, req) == Ok(key)
    case RotateHold(_, key) => req.RotateKey? && Prepared(c, req) == Ok(key)
    case UseWantKey => req.Encrypt? || req.Decrypt?
    case UseHoldKey => req.Encrypt? || req.Decrypt?
    case StatusWantAlgo => req.GetStatus?
    case StatusHoldAlgo => req.GetStatus?
    case StatusWantKey(_) => req.GetStatus?
    case StatusHoldKey(_) => req.GetStatus?
    case _ => false
  }

  predicate Explains(c: Gcm.Cipher, cell: Option<KeyHandle>, req: Request, pc: Pc) {
    match pc
    case UseWantProvider(key) => (req.Encrypt? || req.Decrypt?) && cell == Some(key)
    case UseHoldProvider(key) => (req.Encrypt? || req.Decrypt?) && cell == Some(key)
    case UseCount(resp) => !req.GetStatus? && Agrees(c, cell, req, resp)
    case UseRelease(resp) => !req.GetStatus? && Agrees(c, cell, req, resp)
    case StatusLoad(_, report) => req.GetStatus? && report.activeKeyId == IdOf(cell)
    case Done(resp) => Agrees(c, cell, req, resp)
    case _ => false
  }

  function DaemonAccount(c: Gcm.Cipher): Account {
    Account(
      (cells: Cells) => cells.provider.backend == Ring,
      (cells, req, pc) => true,
      (req, pc) => CommitPoint(c, req, pc),
      (cell, req) => AfterCell(c, cell, req),
      (req, pc) => Uncommitted(c, req, pc),
      (cell, req, pc) => Explains(c, cell, req, pc))
  }

  /** Before its linearization point a task leaves the key cell alone; at it, the cell changes as specified. */
  lemma ActBefore(c: Gcm.Cipher, cells: Cells, req: Request, pc: Pc, clock: u64)
    requires Wants(pc).None? && !pc.Done? && Uncommitted(c, req, pc) && cells.provider.backend == Ring
    ensures var (cells', pc') := Act(c, cells, req, pc, clock);
      && cells'.provider.backend == Ring
      && if CommitPoint(c, req, pc)
         then Explains(c, cells.key, req, pc') && cells'.key == AfterCell(c, cells.key, req)
         else Uncommitted(c, req, pc') && cells'.key == cells.key
  {
  }

  /** After it, the task's answer stays explained by the cell contents it saw, and the key cell is left alone. */
  lemma ActAfter(c: Gcm.Cipher, cell: Option<KeyHandle>, cells: Cells, req: Request, pc: Pc, clock: u64)
    requires Wants(pc).None? && !pc.Done? && Explains(c, cell, req, pc) && cells.provider.backend == Ring
    ensures var (cells', pc') := Act(c, cells, req, pc, clock);
      && cells'.provider.backend == Ring
      && Explains(c, cell, req, pc') && cells'.key == cells.key && !CommitPoint(c, req, pc)
  {
    if pc.UseHoldProvider? {
      AnswerAgrees(c, cells.provider, pc.key, req);
    }
  }

  lemma DaemonBefore(c: Gcm.Cipher)
    ensures SoundBefore(DaemonHandler(c), DaemonAccount(c))
  {
    forall cells: Cells, req, pc, clock |
      Wants(pc).None? && !pc.Done? && cells.provider.backend == Ring && Uncommitted(c, req, pc)
    {
      ActBefore(c, cells, req, pc, clock);
    }
  }

  lemma DaemonAfter(c: Gcm.Cipher)
    ensures SoundAfter(DaemonHandler(c), DaemonAccount(c))
  {
    forall cell, cells: Cells, req, pc, clock |
      Wants(pc).None? && !pc.Done? && cells.provider.backend == Ring && Explains(c, cell, req, pc)
    {
      ActAfter(c, cell, cells, req, pc, clock);
    }
  }

  lemma DaemonAccountSound(c: Gcm.Cipher)
    ensures Sound(DaemonHandler(c), DaemonAccount(c))
  {
    DaemonBefore(c);
    DaemonAfter(c);
  }

  // ---- the theorems ----

  lemma IdleExplained(c: Gcm.Cipher)
    ensures Explained(DaemonAccount(c), IDLE, [])
  {
  }

  /** Every finished request of every run stands exactly once in the log, and its answer is the
      one-cell specification's after the requests logged before it, up to an algorithm mismatch. */
  lemma Linearizable(c: Gcm.Cipher, run: seq<Event>, i: nat) returns (j: nat)
    requires i < |Exec(DaemonHandler(c), IDLE, run).tasks| && Exec(DaemonHandler(c), IDLE, run).tasks[i].pc.Done?
    ensures var h, a := DaemonHandler(c), DaemonAccount(c);
      var log, t := Log(h, a, IDLE, run), Exec(h, IDLE, run).tasks[i];
      StandsAt(log, i, t.req, j) && Agrees(c, Replay(DaemonAccount(c), log, j), t.req, t.pc.resp)
  {
    DaemonAccountSound(c);
    IdleExplained(c);
    FreelySteered(DaemonHandler(c), DaemonAccount(c), IDLE, run);
    j := FinishedAtEnd(DaemonHandler(c), DaemonAccount(c), IDLE, run, i);
  }

  /** Ciphertexts, plaintexts, 401 and 409 are never wrong: such an answer is the specification's. */
  lemma DecisiveAnswersExact(c: Gcm.Cipher, cell: Option<KeyHandle>, req: Request, resp: Response)
    requires Agrees(c, cell, req, resp)
    requires resp.Ciphertext? || resp.Plaintext? || resp.Ack? || (resp.Error? && resp.code in {401, 409, 501})
    ensures resp == SpecAnswer(c, cell, req)
  {
  }

  // ---- when there is no mismatch ----

  /** What the one-cell daemon would report as its algorithm. */
  function AlgoOf(cell: Option<KeyHandle>): AlgoId {
    if cell.Some? then cell.value.algo else Aes256Gcm
  }

  predicate Exactly(c: Gcm.Cipher, cell: Option<KeyHandle>, req: Request, resp: Response) {
    if req.GetStatus? then Agrees(c, cell, req, resp) else resp == SpecAnswer(c, cell, req)
  }

  /** An `Encrypt` or `Decrypt` that has the provider finds the one of its key's algorithm. */
  predicate OwnProvider(cells: Cells, pc: Pc) {
    pc.UseHoldProvider? ==> cells.provider == Provider(Ring, pc.key.algo)
  }

  predicate ExplainsExactly(c: Gcm.Cipher, cell: Option<KeyHandle>, req: Request, pc: Pc) {
    match pc
    case UseWantProvider(key) => (req.Encrypt? || req.Decrypt?) && cell == Some(key)
    case UseHoldProvider(key) => (req.Encrypt? || req.Decrypt?) && cell == Some(key)
    case UseCount(resp) => !req.GetStatus? && resp == SpecAnswer(c, cell, req)
    case UseRelease(resp) => !req.GetStatus? && resp == SpecAnswer(c, cell, req)
    case StatusLoad(_, report) => req.GetStatus? && report.activeKeyId == IdOf(cell)
    case Done(resp) => Exactly(c, cell, req, resp)
    case _ => false
  }

  function ExactAccount(c: Gcm.Cipher): Account {
    DaemonAccount(c).(
      allows := (cells, req, pc) => OwnProvider(cells, pc),
      explains := (cell, req, pc) => ExplainsExactly(c, cell, req, pc))
  }

  lemma ActBeforeExact(c: Gcm.Cipher, cells: Cells, req: Request, pc: Pc, clock: u64)
    requires Wants(pc).None? && !pc.Done? && Uncommitted(c, req, pc) && cells.provider.backend == Ring
    ensures var (cells', pc') := Act(c, cells, req, pc, clock);
      && cells'.provider.backend == Ring
      && if CommitPoint(c, req, pc)
         then ExplainsExactly(c, cells.key, req, pc') && cells'.key == AfterCell(c, cells.key, req)
         else Uncommitted(c, req, pc') && cells'.key == cells.key
  {
    ActBefore(c, cells, req, pc, clock);
  }

  lemma ActAfterExact(c: Gcm.Cipher, cell: Option<KeyHandle>, cells: Cells, req: Request, pc: Pc, clock: u64)
    requires Wants(pc).None? && !pc.Done? && cells.provider.backend == Ring
    requires OwnProvider(cells, pc) && ExplainsExactly(c, cell, req, pc)
    ensures var (cells', pc') := Act(c, cells, req, pc, clock);
      && cells'.provider.backend == Ring
      && ExplainsExactly(c, cell, req, pc') && cells'.key == cells.key && !CommitPoint(c, req, pc)
  {
    if pc.UseHoldProvider? {
      AnswerAgrees(c, cells.provider, pc.key, req);
    }
  }

  lemma ExactBefore(c: Gcm.Cipher)
    ensures SoundBefore(DaemonHandler(c), ExactAccount(c))
  {
    forall cells: Cells, req, pc, clock |
      Wants(pc).None? && !pc.Done? && cells.provider.backend == Ring && Uncommitted(c, req, pc)
    {
      ActBeforeExact(c, cells, req, pc, clock);
    }
  }

  lemma ExactAfter(c: Gcm.Cipher)
    ensures SoundAfter(DaemonHandler(c), ExactAccount(c))
  {
    forall cell, cells: Cells, req, pc, clock |
      Wants(pc).None? && !pc.Done? && cells.provider.backend == Ring
      && OwnProvider(cells, pc) && ExplainsExactly(c, cell, req, pc)
    {
      ActAfterExact(c, cell, cells, req, pc, clock);
    }
  }

  lemma ExactAccountSound(c: Gcm.Cipher)
    ensures Sound(DaemonHandler(c), ExactAccount(c))
  {
    ExactBefore(c);
    ExactAfter(c);
  }

  lemma {:induction false} SameLog(h: Handler, a: Account, b: Account, s: Sys, run: seq<Event>)
    requires a.commits == b.commits
    ensures Log(h, a, s, run) == Log(h, b, s, run)
    decreases |run|
  {
    if run != [] {
      SameLog(h, a, b, Apply(h, s, run[0]), run[1..]);
    }
  }

  lemma {:induction false} SameReplay(a: Account, b: Account, log: seq<Entry>, n: nat)
    requires a.after == b.after && n <= |log|
    ensures Replay(a, log, n) == Replay(b, log, n)
  {
    if n > 0 {
      SameReplay(a, b, log, n - 1);
    }
  }

  /** If in a run no `Encrypt` or `Decrypt` ever finds the provider of another algorithm than its key's,
      every answer of the run is the one-cell daemon's, exactly. */
  lemma OwnProvidersExact(c: Gcm.Cipher, run: seq<Event>, i: nat) returns (j: nat)
    requires Steered(DaemonHandler(c), ExactAccount(c), IDLE, run)
    requires i < |Exec(DaemonHandler(c), IDLE, run).tasks| && Exec(DaemonHandler(c), IDLE, run).tasks[i].pc.Done?
    ensures var h, a := DaemonHandler(c), DaemonAccount(c);
      var log, t := Log(h, a, IDLE, run), Exec(h, IDLE, run).tasks[i];
      StandsAt(log, i, t.req, j) && Exactly(c, Replay(a, log, j), t.req, t.pc.resp)
  {
    var h, a, b := DaemonHandler(c), DaemonAccount(c), ExactAccount(c);
    ExactAccountSound(c);
    assert Explained(b, IDLE, []);
    j := FinishedAtEnd(h, b, IDLE, run, i);
    SameLog(h, a, b, IDLE, run);
    SameReplay(a, b, Log(h, a, IDLE, run), j);
  }
}
